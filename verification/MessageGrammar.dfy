/** Message expressions as a grammar: sums of operands, ternaries and parentheses, and what is_fixed_message makes of them. */
module MessageGrammar {
  import opened Text
  import opened LogRatchet
  import opened NestedCode
  import opened FixedMessage
  import opened PlusCut

  // ---- what the two scans pass over --------------------------------------

  /** No top-level '?' but those of "?." and "??"; `after` tells whether a '?' stands before. */
  ghost predicate QuestionFree(code: Code, after: bool) {
    match code
    case End => true
    case Plain(c, rest) =>
      && (c == '?' ==> after || (rest.Plain? && (rest.c == '.' || rest.c == '?')))
      && QuestionFree(rest, c == '?')
    case Str(_, _, rest) => QuestionFree(rest, false)
    case Group(_, _, rest) => QuestionFree(rest, false)
  }

  /** How many top-level '?' the scan for the ':' counts: those not followed by '.' or '?'. In code without a ternary that is
      one for every "??". */
  function Marks(code: Code): nat {
    match code
    case End => 0
    case Plain(c, rest) =>
      (if c == '?' && !(rest.Plain? && (rest.c == '.' || rest.c == '?')) then 1 else 0) + Marks(rest)
    case Str(_, _, rest) => Marks(rest)
    case Group(_, _, rest) => Marks(rest)
  }

  predicate Calm(code: Code) { Marks(code) == 0 }

  /** What stands at position `i` does not belong to a '?' before it. */
  predicate Clean(s: string, i: nat) {
    i < |s| ==> s[i] != '.' && s[i] != '?'
  }

  lemma NextHolds(s: string, i: nat, rest: Code)
    requires i < |s| && Holds(s, i + 1, Render(rest)) && rest.Plain? && (rest.c == '.' || rest.c == '?')
    ensures NextIsDotOrQuestion(s, i)
  {
    HoldsHead(s, i + 1, rest.c, Render(rest.rest));
  }

  lemma {:induction false} QuestionScan(s: string, i: nat, code: Code, depth: int, after: bool)
    requires WellNested(code) && Holds(s, i, Render(code)) && depth >= 0
    requires depth == 0 ==> QuestionFree(code, after) && (after ==> i > 0 && s[i - 1] == '?')
    ensures Question(s, i, depth) == Question(s, i + |Render(code)|, depth)
    decreases code
  {
    hide StringEnd, Question, Holds, NextIsDotOrQuestion, WellNested, WellFormed, Render, RenderBody, IsQuote, IsOpener, IsCloser, CloserOf;
    HeadOf(code);
    match code
    case End =>
    case Plain(c, rest) =>
      HoldsHead(s, i, c, Render(rest));
      QuestionStep(s, i, depth);
      if rest.Plain? && (rest.c == '.' || rest.c == '?') { NextHolds(s, i, rest); }
      QuestionScan(s, i + 1, rest, depth, c == '?');
    case Str(quote, body, rest) =>
      StrParts(s, i, quote, body, rest);
      QuestionStep(s, i, depth);
      StringScan(s, i + 1, body, quote);
      QuestionScan(s, i + 2 + |RenderBody(body)|, rest, depth, false);
    case Group(o, inner, rest) =>
      GroupParts(s, i, o, inner, rest);
      var at := i + 1 + |Render(inner)|;
      QuestionStep(s, i, depth);
      QuestionScan(s, i + 1, inner, depth + 1, false);
      QuestionStep(s, at, depth + 1);
      QuestionScan(s, at + 1, rest, depth, false);
  }

  /** The character after a '?' decides whether it counts. */
  lemma NextExact(s: string, i: nat, rest: Code)
    requires i < |s| && WellNested(rest) && Holds(s, i + 1, Render(rest)) && Clean(s, i + 1 + |Render(rest)|)
    ensures NextIsDotOrQuestion(s, i) <==> rest.Plain? && (rest.c == '.' || rest.c == '?')
  {
    hide Holds, WellNested, RenderBody;
    RenderHead(rest);
    HeadOf(rest);
    match rest
    case End =>
    case Plain(c, r) => HoldsHead(s, i + 1, c, Render(r));
    case Str(quote, body, r) => HoldsHead(s, i + 1, quote, RenderBody(body) + ([quote] + Render(r)));
    case Group(open, inner, r) => HoldsHead(s, i + 1, open, Render(inner) + ([CloserOf(open)] + Render(r)));
  }

  lemma MarksHead(code: Code)
    ensures code.End? ==> Marks(code) == 0
    ensures code.Plain? ==>
              var counts := code.c == '?' && !(code.rest.Plain? && (code.rest.c == '.' || code.rest.c == '?'));
              Marks(code) == if counts then 1 + Marks(code.rest) else Marks(code.rest)
    ensures code.Plain? && NoTop(code, ':') ==> code.c != ':' && NoTop(code.rest, ':')
    ensures code.Str? || code.Group? ==> Marks(code) == Marks(code.rest) && (NoTop(code, ':') ==> NoTop(code.rest, ':'))
  {
  }

  /** Inside brackets the scan for the ':' passes over everything. */
  lemma {:induction false} ColonSkip(s: string, i: nat, code: Code, depth: int, nested: int)
    requires WellNested(code) && Holds(s, i, Render(code)) && depth > 0
    ensures Colon(s, i, depth, nested) == Colon(s, i + |Render(code)|, depth, nested)
    decreases code
  {
    hide *;
    HeadOf(code);
    match code
    case End =>
    case Plain(c, rest) =>
      HoldsHead(s, i, c, Render(rest));
      ColonStep(s, i, depth, nested);
      ColonSkip(s, i + 1, rest, depth, nested);
    case Str(quote, body, rest) =>
      StrParts(s, i, quote, body, rest);
      ColonStep(s, i, depth, nested);
      StringScan(s, i + 1, body, quote);
      ColonSkip(s, i + 2 + |RenderBody(body)|, rest, depth, nested);
    case Group(o, inner, rest) =>
      GroupParts(s, i, o, inner, rest);
      var at := i + 1 + |Render(inner)|;
      ColonStep(s, i, depth, nested);
      ColonSkip(s, i + 1, inner, depth + 1, nested);
      ColonStep(s, at, depth + 1, nested);
      ColonSkip(s, at + 1, rest, depth, nested);
  }

  lemma {:induction false} ColonScan(s: string, i: nat, code: Code, nested: int)
    requires WellNested(code) && Holds(s, i, Render(code)) && NoTop(code, ':') && Clean(s, i + |Render(code)|)
    ensures Colon(s, i, 0, nested) == Colon(s, i + |Render(code)|, 0, nested + Marks(code))
    decreases code
  {
    hide *;
    HeadOf(code);
    MarksHead(code);
    match code
    case End =>
    case Plain(c, rest) =>
      HoldsHead(s, i, c, Render(rest));
      ColonStep(s, i, 0, nested);
      NextExact(s, i, rest);
      var counts := c == '?' && !(rest.Plain? && (rest.c == '.' || rest.c == '?'));
      ColonScan(s, i + 1, rest, if counts then nested + 1 else nested);
    case Str(quote, body, rest) =>
      StrParts(s, i, quote, body, rest);
      ColonStep(s, i, 0, nested);
      StringScan(s, i + 1, body, quote);
      ColonScan(s, i + 2 + |RenderBody(body)|, rest, nested);
    case Group(o, inner, rest) =>
      GroupParts(s, i, o, inner, rest);
      var at := i + 1 + |Render(inner)|;
      ColonStep(s, i, 0, nested);
      ColonSkip(s, i + 1, inner, 1, nested);
      ColonStep(s, at, 1, nested);
      ColonScan(s, at + 1, rest, nested);
  }

  /** Parentheses wrap a text exactly when it is one parenthesized group. */
  lemma WrappedIff(code: Code)
    requires WellNested(code) && code != End
    ensures Wrapped(Render(code)) <==> code.Group? && code.open == '(' && code.rest.End?
  {
    var s := Render(code);
    HoldsSelf(s);
    WrappedIs(s);
    if code.Group? && code.open == '(' {
      GroupWhole(code);
    } else {
      hide Wrapped, Holds, WellFormed, RenderBody, BalancedEnd;
    }
  }

  lemma GroupWhole(code: Code)
    requires WellNested(code) && code.Group? && code.open == '('
    ensures Wrapped(Render(code)) <==> code.rest.End?
  {
    hide *;
    GroupNested(code);
    var s, inner, rest := Render(code), code.inner, code.rest;
    HoldsSelf(s);
    GroupIs(code);
    GroupParts(s, 0, '(', inner, rest);
    RenderEmpty(rest);
    BalancedStep(s, 0, 0, '(', ')');
    CloserNoSlash(s, 1 + |Render(inner)|);
    CodeScan(s, 1, inner, 1, '(', ')');
    BalancedStep(s, 1 + |Render(inner)|, 1, '(', ')');
    WrappedIs(s);
  }

  lemma GroupIs(code: Code)
    requires code.Group?
    ensures code == Group(code.open, code.inner, code.rest)
  {
  }

  lemma GroupNested(code: Code)
    requires WellNested(code) && code.Group? && code.open == '('
    ensures WellNested(code.inner) && Pair('(', ')') && CloserOf('(') == ')'
    ensures !IsQuote('(') && !IsQuote(')')
  {
  }

  lemma CloserNoSlash(s: string, i: nat)
    requires i < |s| && s[i] == ')'
    ensures NoSlashStar(s, i)
  {
  }

  // ---- message expressions -----------------------------------------------

  /** A sum of operands, a conditional, or an expression in parentheses. */
  datatype Expr =
    | Sum(operands: seq<Code>)
    | Cond(cond: Code, yes: Expr, no: Expr)
    | Paren(e: Expr)

  /** A sum as it is written; an empty operand puts a unary plus before the next one. */
  function SumCode(operands: seq<Code>): Code
    requires operands != []
  {
    if |operands| == 1 then operands[0]
    else if operands[0].End? then Plain('+', SumCode(operands[1..]))
    else Append(operands[0], Spaced('+', SumCode(operands[1..])))
  }

  ghost predicate Loner(code: Code) {
    code.Group? && code.open == '(' && code.rest.End?
  }

  /** A piece of code the scans can be asked about. */
  ghost predicate Piece(code: Code) {
    WellNested(code) && Trimmed(Render(code)) && QuestionFree(code, false) && NoTop(code, ':')
  }

  /** The operands of a sum: none holds a top-level '+', and only the last may not be empty. */
  ghost predicate Operands(ops: seq<Code>) {
    && ops != []
    && forall k :: 0 <= k < |ops| ==> NoTop(ops[k], '+') && ((k < |ops| - 1 && ops[k].End?) || Piece(ops[k]))
  }

  /** Expressions as they are written, with unary pluses, and no piece with a top-level ternary of its own. */
  ghost predicate Proper(e: Expr) {
    match e
    case Sum(ops) => Operands(ops) && (|ops| == 1 ==> !Loner(ops[0]))
    case Cond(cond, yes, no) => Piece(cond) && Proper(yes) && Proper(no)
    case Paren(inner) => Proper(inner)
  }

  /** The marks of an expression that stand outside parentheses. */
  ghost function MarksOf(e: Expr): nat
    requires Proper(e)
  {
    match e
    case Sum(ops) => Marks(SumCode(ops))
    case Cond(cond, yes, no) => Marks(cond) + MarksOf(yes) + MarksOf(no)
    case Paren(_) => 0
  }

  /** No "??" outside parentheses. */
  ghost predicate CalmExpr(e: Expr) {
    match e
    case Sum(ops) => forall k :: 0 <= k < |ops| ==> Calm(ops[k])
    case Cond(cond, yes, no) => Calm(cond) && CalmExpr(yes) && CalmExpr(no)
    case Paren(_) => true
  }

  /** No then-branch holds a "??" outside parentheses. */
  ghost predicate Recognised(e: Expr) {
    match e
    case Sum(_) => true
    case Cond(_, yes, no) => CalmExpr(yes) && Recognised(yes) && Recognised(no)
    case Paren(inner) => Recognised(inner)
  }

  /** The decision as it is meant: every branch is a sum of literals. */
  predicate AllLiteral(e: Expr) {
    match e
    case Sum(ops) => forall k :: 0 <= k < |ops| ==> IsLiteral(ops[k])
    case Cond(_, yes, no) => AllLiteral(yes) && AllLiteral(no)
    case Paren(inner) => AllLiteral(inner)
  }

  ghost function CodeOf(e: Expr): Code
    requires Proper(e)
  {
    match e
    case Sum(ops) => SumCode(ops)
    case Cond(cond, yes, no) => Append(cond, Spaced('?', Append(CodeOf(yes), Spaced(':', CodeOf(no)))))
    case Paren(inner) => Group('(', CodeOf(inner), End)
  }

  ghost function TextOf(e: Expr): string
    requires Proper(e)
  {
    Render(CodeOf(e))
  }

  lemma RenderSpaced(c: char, rest: Code)
    ensures Render(Spaced(c, rest)) == " " + [c] + " " + Render(rest)
  {
    var r := Render(rest);
    assert Render(Plain(' ', rest)) == [' '] + r;
    assert Render(Plain(c, Plain(' ', rest))) == [c] + ([' '] + r);
    assert [' '] + ([c] + ([' '] + r)) == " " + [c] + " " + r;
  }

  lemma NestedSpaced(c: char, rest: Code)
    requires WellNested(rest) && c in {'+', '?', ':'}
    ensures WellNested(Spaced(c, rest)) && Spaced(c, rest).Plain? && Spaced(c, rest).c == ' '
  {
  }

  /** What is asked of a text stays true when more text follows after a space. */
  lemma Follow(a: Code, c: char, b: Code)
    requires WellNested(a) && WellNested(b) && Trimmed(Render(a)) && Trimmed(Render(b)) && c in {'+', '?', ':'}
    ensures var code := Append(a, Spaced(c, b));
            && WellNested(code) && Render(code) == Render(a) + (" " + [c] + " " + Render(b))
            && Trimmed(Render(code)) && !Loner(code) && code != End
  {
    hide WellNested;
    NestedSpaced(c, b);
    NestedAppend(a, Spaced(c, b));
    RenderAppend(a, Spaced(c, b));
    RenderSpaced(c, b);
    EndsTrimmed(Render(a), " " + [c] + " ", Render(b));
    hide Render, Trimmed;
    if a.Group? { AppendMore(a.rest, ' ', Plain(c, Plain(' ', b))); }
  }

  lemma AppendMore(a: Code, c: char, b: Code)
    ensures Append(a, Plain(c, b)) != End
  {
  }

  lemma EndsTrimmed(a: string, m: string, b: string)
    requires Trimmed(a) && Trimmed(b)
    ensures Trimmed(a + (m + b))
  {
    hide IsBlank;
    var w := a + (m + b);
    assert w[0] == a[0] && w[|w| - 1] == b[|b| - 1];
  }

  lemma {:induction false} FreeAppend(a: Code, b: Code, after: bool)
    requires QuestionFree(a, after) && b.Plain? && b.c == ' ' && QuestionFree(b, false)
    ensures QuestionFree(Append(a, b), after)
  {
    match a
    case End =>
    case Plain(c, rest) => FreeAppend(rest, b, c == '?');
    case Str(_, _, rest) => FreeAppend(rest, b, false);
    case Group(_, _, rest) => FreeAppend(rest, b, false);
  }

  lemma {:induction false} MarksAppend(a: Code, b: Code)
    requires b.Plain? && b.c == ' '
    ensures Marks(Append(a, b)) == Marks(a) + Marks(b)
    ensures NoTop(Append(a, b), ':') <==> NoTop(a, ':') && NoTop(b, ':')
  {
    match a
    case End =>
    case Plain(c, rest) => MarksAppend(rest, b);
    case Str(_, _, rest) => MarksAppend(rest, b);
    case Group(_, _, rest) => MarksAppend(rest, b);
  }

  lemma NotEmpty(code: Code)
    requires Trimmed(Render(code))
    ensures code != End
  {
  }

  lemma {:induction false} SumIs(ops: seq<Code>)
    requires ops != [] && forall k :: 0 <= k < |ops| ==> (k < |ops| - 1 && ops[k].End?) || Piece(ops[k])
    ensures var code := SumCode(ops);
            && Piece(code) && code != End && (|ops| > 1 ==> !Loner(code))
            && (Marks(code) == 0 <==> forall k :: 0 <= k < |ops| ==> Calm(ops[k]))
    decreases |ops|
  {
    hide Render, WellNested, Trimmed, Loner, Append, QuestionFree, Marks, NoTop;
    if |ops| == 1 {
      NotEmpty(ops[0]);
    } else {
      var rest := SumCode(ops[1..]);
      SumIs(ops[1..]);
      if ops[0].End? {
        PlusPiece(rest);
        PlusMarks(rest);
      } else {
        Follow(ops[0], '+', rest);
        PlusSpaced(rest);
        FreeAppend(ops[0], Spaced('+', rest), false);
        MarksAppend(ops[0], Spaced('+', rest));
      }
      assert ops == [ops[0]] + ops[1..];
    }
  }

  lemma PlusMarks(rest: Code)
    ensures Marks(Plain('+', rest)) == Marks(rest) && !Loner(Plain('+', rest)) && Calm(End)
  {
  }

  lemma PlusSpaced(rest: Code)
    ensures " " + ['+'] + " " == " + "
    ensures var b := Spaced('+', rest); b.Plain? && b.c == ' '
    ensures QuestionFree(rest, false) ==> QuestionFree(Spaced('+', rest), false)
    ensures Marks(Spaced('+', rest)) == Marks(rest) && (NoTop(Spaced('+', rest), ':') <==> NoTop(rest, ':'))
  {
    var a := Plain(' ', rest);
    var b := Plain('+', a);
    assert Marks(a) == Marks(rest) && Marks(b) == Marks(a);
    assert (NoTop(a, ':') <==> NoTop(rest, ':')) && (NoTop(b, ':') <==> NoTop(a, ':'));
  }

  lemma {:induction false} CalmIff(e: Expr)
    requires Proper(e)
    ensures CalmExpr(e) <==> MarksOf(e) == 0
  {
    hide Piece, Marks, Loner;
    match e
    case Sum(ops) => SumIs(ops);
    case Cond(cond, yes, no) =>
      CalmIff(yes);
      CalmIff(no);
    case Paren(_) =>
  }

  lemma {:induction false} ExprIs(e: Expr)
    requires Proper(e)
    ensures WellNested(CodeOf(e)) && Trimmed(TextOf(e)) && CodeOf(e) != End
    ensures !e.Paren? ==> !Loner(CodeOf(e))
  {
    hide Render, WellNested, Trimmed, Loner, Append, QuestionFree, NoTop;
    match e
    case Sum(ops) => SumIs(ops);
    case Cond(cond, yes, no) =>
      ExprIs(yes);
      ExprIs(no);
      Follow(CodeOf(yes), ':', CodeOf(no));
      Follow(cond, '?', Append(CodeOf(yes), Spaced(':', CodeOf(no))));
    case Paren(inner) =>
      ExprIs(inner);
      GroupFine(CodeOf(inner));
  }

  lemma GroupFine(code: Code)
    requires WellNested(code)
    ensures WellNested(Group('(', code, End)) && Render(Group('(', code, End)) == "(" + Render(code) + ")"
    ensures Trimmed(Render(Group('(', code, End)))
  {
    var w := "(" + Render(code) + ")";
    assert Render(Group('(', code, End)) == w;
    assert w[0] == '(' && w[|w| - 1] == ')';
  }

  // ---- the scans on expressions ------------------------------------------

  /** Code, then a spaced character, then more code: where everything stands. */
  lemma AfterParts(s: string, i: nat, a: Code, c: char, b: Code)
    requires Holds(s, i, Render(Append(a, Spaced(c, b))))
    ensures var at := i + |Render(a)|;
            && Holds(s, i, Render(a)) && Holds(s, at + 3, Render(b))
            && at + 2 < |s| && s[at] == ' ' && s[at + 1] == c && s[at + 2] == ' '
            && |Render(Append(a, Spaced(c, b)))| == |Render(a)| + 3 + |Render(b)|
  {
    hide *;
    RenderAppend(a, Spaced(c, b));
    RenderSpaced(c, b);
    var at, r := i + |Render(a)|, Render(b);
    assert " " + [c] + " " + r == [' '] + ([c] + ([' '] + r));
    HoldsParts(s, i, Render(a), [' '] + ([c] + ([' '] + r)));
    HoldsHead(s, at, ' ', [c] + ([' '] + r));
    HoldsHead(s, at + 1, c, [' '] + r);
    HoldsHead(s, at + 2, ' ', r);
  }

  lemma ColonMark(s: string, at: nat, c: char, nested: int)
    requires at + 2 < |s| && s[at] == ' ' && s[at + 1] == c && s[at + 2] == ' '
    ensures c == '?' ==> Colon(s, at, 0, nested) == Colon(s, at + 3, 0, nested + 1)
    ensures c == ':' ==> Colon(s, at, 0, nested) == if nested == 0 then at + 1 else Colon(s, at + 3, 0, nested - 1)
  {
    hide Colon, StringEnd;
    ColonStep(s, at, 0, nested);
    ColonStep(s, at + 1, 0, nested);
    ColonStep(s, at + 2, 0, if c == '?' then nested + 1 else nested - 1);
  }

  lemma {:induction false} ColonExpr(s: string, i: nat, e: Expr, nested: nat)
    requires Proper(e) && Holds(s, i, TextOf(e)) && Clean(s, i + |TextOf(e)|)
    ensures Colon(s, i, 0, nested) == Colon(s, i + |TextOf(e)|, 0, nested + MarksOf(e))
    decreases e
  {
    hide Render, WellNested, Trimmed, Loner, Append, QuestionFree, Colon, Holds, StringEnd, Marks, NoTop;
    match e
    case Sum(ops) =>
      SumIs(ops);
      ColonScan(s, i, SumCode(ops), nested);
    case Cond(cond, yes, no) =>
      var y, n := CodeOf(yes), CodeOf(no);
      var tail := Append(y, Spaced(':', n));
      var a := i + |Render(cond)|;
      var b := a + 3 + |Render(y)|;
      AfterParts(s, i, cond, '?', tail);
      AfterParts(s, a + 3, y, ':', n);
      var open := nested + Marks(cond) + 1 + MarksOf(yes);
      ColonScan(s, i, cond, nested);
      ColonMark(s, a, '?', nested + Marks(cond));
      ColonExpr(s, a + 3, yes, nested + Marks(cond) + 1);
      ColonMark(s, b, ':', open);
      ColonExpr(s, b + 3, no, open - 1);
    case Paren(inner) =>
      ExprIs(e);
      CalmGroup(CodeOf(inner));
      ColonScan(s, i, CodeOf(e), nested);
  }

  lemma CalmGroup(inner: Code)
    ensures Marks(Group('(', inner, End)) == 0 && NoTop(Group('(', inner, End), ':')
  {
  }

  /** A spaced '?' at the top level is found, and the next one closes nothing before it. */
  lemma QuestionMark(s: string, at: nat)
    requires at + 2 < |s| && s[at] == ' ' && s[at + 1] == '?' && s[at + 2] == ' '
    ensures Question(s, at, 0) == at + 1
  {
    hide Question, StringEnd;
    QuestionStep(s, at, 0);
    QuestionStep(s, at + 1, 0);
  }

  lemma Padded(s: string, i: nat, w: string, from: nat, to: nat)
    requires Trimmed(w) && Holds(s, i, w) && from <= i && i + |w| <= to <= |s|
    requires Blank(s[from..i]) && Blank(s[i + |w|..to])
    ensures Strip(s[from..to]) == w
  {
    hide Trimmed, Blank, Strip, Holds;
    HoldsSlice(s, i, w);
    StripPadded(s[from..i], w, s[i + |w|..to]);
    assert s[from..i] + w + s[i + |w|..to] == s[from..to];
  }

  lemma BlankSlice(s: string, i: nat)
    requires i <= |s|
    ensures Blank(s[i..i])
    ensures i < |s| && s[i] == ' ' ==> Blank(s[i..i + 1])
  {
  }

  lemma CondScan(cond: Code, yes: Expr, no: Expr)
    requires Proper(Cond(cond, yes, no))
    ensures var s, a := TextOf(Cond(cond, yes, no)), |Render(cond)|; var b := a + 3 + |TextOf(yes)|;
            && Question(s, 0, 0) == a + 1 && Colon(s, a + 2, 0, 0) == (if MarksOf(yes) == 0 then b + 1 else -1)
            && |s| == b + 3 + |TextOf(no)| && s[a] == ' ' && s[a + 2] == ' ' && s[b] == ' ' && s[b + 2] == ' '
            && Holds(s, 0, Render(cond)) && Holds(s, a + 3, TextOf(yes)) && Holds(s, b + 3, TextOf(no))
  {
    hide *;
    CondIs(cond, yes, no);
    var s, y, n := TextOf(Cond(cond, yes, no)), CodeOf(yes), CodeOf(no);
    var a := |Render(cond)|;
    var b := a + 3 + |Render(y)|;
    HoldsSelf(s);
    AfterParts(s, 0, cond, '?', Append(y, Spaced(':', n)));
    AfterParts(s, a + 3, y, ':', n);
    QuestionScan(s, 0, cond, 0, false);
    QuestionMark(s, a);
    ColonSpace(s, a + 2);
    SpaceClean(s, b);
    ColonExpr(s, a + 3, yes, 0);
    ColonMark(s, b, ':', MarksOf(yes));
    if MarksOf(yes) > 0 {
      SpaceClean(s, |s|);
      ColonExpr(s, b + 3, no, MarksOf(yes) - 1);
      ColonEnd(s, |s|, 0, MarksOf(yes) - 1 + MarksOf(no));
    }
  }

  lemma SpaceClean(s: string, i: nat)
    requires i < |s| ==> s[i] == ' '
    ensures Clean(s, i)
  {
  }

  /** The ternary is found, and cut where it was written, exactly when its then-branch holds no "??" outside parentheses. */
  lemma TernaryFound(cond: Code, yes: Expr, no: Expr)
    requires Proper(Cond(cond, yes, no))
    ensures TernaryOf(TextOf(Cond(cond, yes, no))) ==
            if CalmExpr(yes) then Ternary(Render(cond), TextOf(yes), TextOf(no)) else NoTernary
  {
    hide *;
    CondIs(cond, yes, no);
    CalmIff(yes);
    ExprIs(yes);
    ExprIs(no);
    CondScan(cond, yes, no);
    var s := TextOf(Cond(cond, yes, no));
    TernaryIs(s);
    Cuts(s, Render(cond), TextOf(yes), TextOf(no));
  }

  lemma Cuts(s: string, c: string, y: string, n: string)
    requires Trimmed(c) && Trimmed(y) && Trimmed(n)
    requires var a := |c|; var b := a + 3 + |y|;
             && |s| == b + 3 + |n| && s[a] == ' ' && s[a + 2] == ' ' && s[b] == ' ' && s[b + 2] == ' '
             && Holds(s, 0, c) && Holds(s, a + 3, y) && Holds(s, b + 3, n)
    ensures var q := |c| + 1; var k := q + 3 + |y|;
            Strip(s[..q]) == c && Strip(s[q + 1..k]) == y && Strip(s[k + 1..]) == n
  {
    hide *;
    var a := |c|;
    var b := a + 3 + |y|;
    BlankSlice(s, 0);
    BlankSlice(s, a);
    BlankSlice(s, a + 2);
    BlankSlice(s, b);
    BlankSlice(s, b + 2);
    BlankSlice(s, |s|);
    Padded(s, 0, c, 0, a + 1);
    Padded(s, a + 3, y, a + 2, b + 1);
    Padded(s, b + 3, n, b + 2, |s|);
    assert s[0..a + 1] == s[..a + 1] && s[b + 2..|s|] == s[b + 2..];
  }

  lemma ColonSpace(s: string, i: nat)
    requires i < |s| && s[i] == ' '
    ensures Colon(s, i, 0, 0) == Colon(s, i + 1, 0, 0)
  {
    hide Colon, StringEnd;
    ColonStep(s, i, 0, 0);
  }

  lemma CondIs(cond: Code, yes: Expr, no: Expr)
    requires Proper(Cond(cond, yes, no))
    ensures Proper(yes) && Proper(no) && WellNested(cond) && Trimmed(Render(cond)) && QuestionFree(cond, false)
    ensures TextOf(yes) == Render(CodeOf(yes)) && TextOf(no) == Render(CodeOf(no))
    ensures TextOf(Cond(cond, yes, no)) == Render(Append(cond, Spaced('?', Append(CodeOf(yes), Spaced(':', CodeOf(no))))))
  {
    hide Render, WellNested, Trimmed, Append, QuestionFree;
  }

  // ---- the decision ------------------------------------------------------

  /** The operands reach an empty one with only literals before it. */
  ghost predicate ReachesEnd(ops: seq<Code>) {
    exists k :: 0 <= k < |ops| && ops[k].End? && forall j :: 0 <= j < k ==> IsLiteral(ops[j])
  }

  lemma ReachesRest(ops: seq<Code>)
    requires ops != []
    ensures ReachesEnd(ops) <==> ops[0].End? || (IsLiteral(ops[0]) && ReachesEnd(ops[1..]))
  {
    hide IsLiteral;
    if k :| 0 <= k < |ops| && ops[k].End? && forall j :: 0 <= j < k ==> IsLiteral(ops[j]) {
      if k > 0 {
        assert IsLiteral(ops[0]) && ops[1..][k - 1].End?;
        forall j | 0 <= j < k - 1 ensures IsLiteral(ops[1..][j]) { assert IsLiteral(ops[j + 1]); }
      }
    }
    if IsLiteral(ops[0]) {
      if k :| 0 <= k < |ops[1..]| && ops[1..][k].End? && forall j :: 0 <= j < k ==> IsLiteral(ops[1..][j]) {
        assert ops[k + 1].End?;
        forall j | 0 <= j < k + 1 ensures IsLiteral(ops[j]) { if j > 0 { assert IsLiteral(ops[1..][j - 1]); } }
      }
    }
  }

  lemma {:induction false} OperandsDecided(ops: seq<Code>)
    requires forall k :: 0 <= k < |ops| ==> WellNested(ops[k])
    ensures AllPlain(Texts(ops)) == Yes <==> forall k :: 0 <= k < |ops| ==> IsLiteral(ops[k])
    ensures AllPlain(Texts(ops)) == Raises <==> ReachesEnd(ops)
  {
    hide *;
    AllPlainStep(ops);
    if ops == [] {
      NoneReached();
    } else {
      OperandsDecided(ops[1..]);
      OperandDecided(ops[0]);
      ReachesRest(ops);
      assert ops == [ops[0]] + ops[1..];
    }
  }

  lemma AllPlainStep(ops: seq<Code>)
    ensures ops == [] ==> AllPlain(Texts(ops)) == Yes
    ensures ops != [] ==>
              var v := PlainLiteral(Render(ops[0]));
              AllPlain(Texts(ops)) == if v == Yes then AllPlain(Texts(ops[1..])) else v
  {
    hide Render, PlainLiteral;
    if ops != [] { assert Texts(ops)[1..] == Texts(ops[1..]); }
  }

  lemma NoneReached()
    ensures !ReachesEnd([])
  {
  }

  lemma OperandDecided(code: Code)
    requires WellNested(code)
    ensures PlainLiteral(Render(code)) == if code.End? then Raises else if IsLiteral(code) then Yes else No
    ensures code.End? ==> !IsLiteral(code)
  {
    hide WellNested, IsLiteral;
    if code.End? { EndIsNoLiteral(); } else { PlainLiteralIff(code); }
  }

  lemma EndIsNoLiteral()
    ensures !IsLiteral(End) && PlainLiteral(Render(End)) == Raises
  {
  }

  /** Cutting a sum at its pluses undoes writing it, empty operands and all. */
  lemma {:induction false} CutSum(ops: seq<Code>)
    requires Operands(ops)
    ensures Stripped(Cut(SumCode(ops))) == Texts(ops)
    decreases |ops|
  {
    hide *;
    OperandsStep(ops);
    if |ops| == 1 {
      CutNone(ops[0]);
      StrippedIs([ops[0]]);
      StripTrimmed(Render(ops[0]));
      NoneStripped();
      assert [ops[0]][1..] == [];
    } else {
      CutSum(ops[1..]);
      if ops[0].End? { CutUnary(SumCode(ops[1..])); } else { CutAtPlus(ops[0], SumCode(ops[1..])); }
    }
  }

  lemma NoneStripped()
    ensures Stripped([]) == []
  {
  }

  lemma OperandsStep(ops: seq<Code>)
    requires Operands(ops)
    ensures ops != [] && NoTop(ops[0], '+') && (!ops[0].End? ==> Trimmed(Render(ops[0])))
    ensures ops[0].End? ==> |ops| > 1 && Render(ops[0]) == ""
    ensures Texts(ops) == [Render(ops[0])] + Texts(ops[1..])
    ensures |ops| == 1 ==> SumCode(ops) == ops[0] && Texts(ops) == [Render(ops[0])]
    ensures |ops| > 1 ==>
              && Operands(ops[1..])
              && SumCode(ops) == if ops[0].End? then Plain('+', SumCode(ops[1..])) else Append(ops[0], Spaced('+', SumCode(ops[1..])))
  {
    hide *;
    FirstOperand(ops);
    if |ops| > 1 { OperandsRest(ops); }
    SumStep(ops);
  }

  lemma FirstOperand(ops: seq<Code>)
    requires Operands(ops)
    ensures ops != [] && NoTop(ops[0], '+') && (!ops[0].End? ==> Trimmed(Render(ops[0])))
    ensures ops[0].End? ==> |ops| > 1 && Render(ops[0]) == ""
  {
    var first := ops[0];
    hide WellNested, QuestionFree, Trimmed;
    assert (|ops| > 1 && first.End?) || Piece(first);
    if Piece(first) { NotEmpty(first); }
    hide Render, NoTop, Operands;
    if first.End? { RenderHead(first); }
  }

  lemma OperandsRest(ops: seq<Code>)
    requires Operands(ops) && |ops| > 1
    ensures Operands(ops[1..])
  {
    hide Piece, NoTop;
  }

  lemma SumStep(ops: seq<Code>)
    requires ops != []
    ensures Texts(ops) == [Render(ops[0])] + Texts(ops[1..])
    ensures |ops| == 1 ==> SumCode(ops) == ops[0] && Texts(ops) == [Render(ops[0])]
    ensures |ops| > 1 ==>
              SumCode(ops) == if ops[0].End? then Plain('+', SumCode(ops[1..])) else Append(ops[0], Spaced('+', SumCode(ops[1..])))
  {
    hide Render, Append;
    if |ops| == 1 { assert ops[1..] == []; }
  }

  lemma SumDecided(ops: seq<Code>)
    requires Proper(Sum(ops))
    ensures TernaryOf(TextOf(Sum(ops))) == NoTernary
    ensures AllPlain(OperandsOf(TextOf(Sum(ops)))) == Yes <==> AllLiteral(Sum(ops))
    ensures AllPlain(OperandsOf(TextOf(Sum(ops)))) == Raises <==> ReachesEnd(ops)
  {
    hide *;
    SumParts(ops);
    SumIs(ops);
    PieceIs(SumCode(ops));
    var s := TextOf(Sum(ops));
    HoldsSelf(s);
    QuestionScan(s, 0, SumCode(ops), 0, false);
    QuestionEnd(s, |s|, 0);
    TernaryIs(s);
    OperandsAreCut(SumCode(ops));
    CutSum(ops);
    OperandsDecided(ops);
  }

  lemma SumParts(ops: seq<Code>)
    requires Proper(Sum(ops))
    ensures Operands(ops) && ops != [] && forall k :: 0 <= k < |ops| ==> (k < |ops| - 1 && ops[k].End?) || Piece(ops[k])
    ensures forall k :: 0 <= k < |ops| ==> WellNested(ops[k])
    ensures TextOf(Sum(ops)) == Render(SumCode(ops))
    ensures AllLiteral(Sum(ops)) <==> forall k :: 0 <= k < |ops| ==> IsLiteral(ops[k])
  {
    EndNested();
    hide Render, WellNested, Trimmed, Loner, QuestionFree, IsLiteral;
  }

  lemma EndNested()
    ensures WellNested(End)
  {
  }

  lemma StripTrimmed(w: string)
    requires Trimmed(w)
    ensures Strip(w) == w
  {
    hide Trimmed, Strip;
    NoBlank();
    StripPadded("", w, "");
    assert "" + w + "" == w;
  }

  lemma NotWrapped(e: Expr)
    requires Proper(e)
    ensures Wrapped(TextOf(e)) <==> e.Paren?
  {
    hide Render, WellNested, Trimmed, Wrapped, Append;
    ExprIs(e);
    WrappedIff(CodeOf(e));
  }

  lemma Unwrapped(e: Expr)
    requires Proper(e)
    ensures var w := TextOf(Paren(e)); |w| >= 2 && w[1..|w| - 1] == TextOf(e)
  {
    hide WellNested;
    ExprIs(e);
    GroupFine(CodeOf(e));
    hide Render;
  }

  /** A ternary that is not recognised is refused, even if all its branches are literals; and it raises exactly if the
      condition, cut at its pluses, reaches an empty operand before its last one with only literals before it. */
  lemma NullishHides(cond: Code, yes: Expr, no: Expr)
    requires Proper(Cond(cond, yes, no)) && !CalmExpr(yes)
    ensures TernaryOf(TextOf(Cond(cond, yes, no))) == NoTernary && IsFixed(TextOf(Cond(cond, yes, no))) != Yes
    ensures IsFixed(TextOf(Cond(cond, yes, no))) == Raises <==> ReachesEmpty(Cut(cond)[..|Cut(cond)| - 1])
  {
    hide *;
    var e := Cond(cond, yes, no);
    CondIs(cond, yes, no);
    ExprIs(e);
    CodeIs(cond, yes, no);
    TernaryFound(cond, yes, no);
    NotWrapped(e);
    StripTrimmed(TextOf(e));
    FixedIs(TextOf(e));
    var rest := Append(CodeOf(yes), Spaced(':', CodeOf(no)));
    MarkTop(rest);
    TopAppend(cond, Spaced('?', rest));
    MarkedIsNoSum(Append(cond, Spaced('?', rest)));
    MarkedRaisesIff(cond, rest);
  }

  lemma CodeIs(cond: Code, yes: Expr, no: Expr)
    requires Proper(Cond(cond, yes, no))
    ensures CodeOf(Cond(cond, yes, no)) == Append(cond, Spaced('?', Append(CodeOf(yes), Spaced(':', CodeOf(no)))))
    ensures TextOf(Cond(cond, yes, no)) == Render(CodeOf(Cond(cond, yes, no)))
  {
    hide Append, Render, Piece;
  }

  /** Where the decision raises: the first branch reached that is not accepted reaches an empty operand, with only literals
      before it; in a ternary that is not recognised, its condition does. */
  ghost predicate RaisesIn(e: Expr) {
    match e
    case Sum(ops) => ReachesEnd(ops)
    case Cond(cond, yes, no) =>
      if !CalmExpr(yes) then ReachesEmpty(Cut(cond)[..|Cut(cond)| - 1])
      else if AllLiteral(yes) && Recognised(yes) then RaisesIn(no)
      else RaisesIn(yes)
    case Paren(inner) => RaisesIn(inner)
  }

  /** is_fixed_message accepts exactly the expressions all of whose branches are sums of plain literals and none of whose
      then-branches holds a "??" outside parentheses: any nesting of sums, ternaries and parentheses, any conditions, any
      literals, any unary pluses. And it raises exactly where an empty operand is reached after literals only. */
  lemma {:induction false} FixedIff(e: Expr)
    requires Proper(e)
    ensures IsFixed(TextOf(e)) == Yes <==> AllLiteral(e) && Recognised(e)
    ensures IsFixed(TextOf(e)) == Raises <==> RaisesIn(e)
    decreases e
  {
    hide *;
    ExprIs(e);
    NotWrapped(e);
    StripTrimmed(TextOf(e));
    FixedIs(TextOf(e));
    Branches(e);
    match e
    case Sum(ops) =>
      SumDecided(ops);
    case Cond(cond, yes, no) =>
      CondIs(cond, yes, no);
      TernaryFound(cond, yes, no);
      FixedIff(yes);
      FixedIff(no);
      if !CalmExpr(yes) { NullishHides(cond, yes, no); }
    case Paren(inner) =>
      Unwrapped(inner);
      FixedIff(inner);
  }

  lemma Branches(e: Expr)
    requires Proper(e)
    ensures e.Cond? ==> (AllLiteral(e) <==> AllLiteral(e.yes) && AllLiteral(e.no))
    ensures e.Cond? ==> (Recognised(e) <==> CalmExpr(e.yes) && Recognised(e.yes) && Recognised(e.no))
    ensures e.Cond? ==>
              (RaisesIn(e) <==> if !CalmExpr(e.yes) then ReachesEmpty(Cut(e.cond)[..|Cut(e.cond)| - 1])
                                else if AllLiteral(e.yes) && Recognised(e.yes) then RaisesIn(e.no) else RaisesIn(e.yes))
    ensures e.Paren? ==>
              Proper(e.e) && (AllLiteral(e) <==> AllLiteral(e.e)) && (Recognised(e) <==> Recognised(e.e)) && (RaisesIn(e) <==> RaisesIn(e.e))
    ensures e.Sum? ==> Recognised(e) && (RaisesIn(e) <==> ReachesEnd(e.operands))
  {
    hide Piece, Operands, CalmExpr, IsLiteral, ReachesEmpty, ReachesEnd, Cut;
  }

  /** No operand of a branch is empty. */
  predicate Full(e: Expr) {
    match e
    case Sum(ops) => forall k :: 0 <= k < |ops| ==> !ops[k].End?
    case Cond(_, yes, no) => Full(yes) && Full(no)
    case Paren(inner) => Full(inner)
  }

  /** Without a unary plus in a branch and with every ternary recognised the decision never raises. */
  lemma FullNeverRaises(e: Expr)
    requires Proper(e) && Recognised(e) && Full(e)
    ensures IsFixed(TextOf(e)) != Raises
  {
    hide *;
    FixedIff(e);
    FullReachesNone(e);
  }

  lemma {:induction false} FullReachesNone(e: Expr)
    requires Recognised(e) && Full(e)
    ensures !RaisesIn(e)
  {
    match e
    case Sum(_) =>
    case Cond(_, yes, no) =>
      FullReachesNone(yes);
      FullReachesNone(no);
    case Paren(inner) => FullReachesNone(inner);
  }

  // ---- where the decision goes wrong -------------------------------------

  /** Code without a ternary is decided as a sum. */
  lemma Ready(code: Code)
    requires Piece(code) && !Loner(code)
    ensures IsFixed(Render(code)) == AllPlain(OperandsOf(Render(code)))
  {
    hide *;
    PieceIs(code);
    LonerIs(code);
    var s := Render(code);
    NotEmpty(code);
    WrappedIff(code);
    StripTrimmed(s);
    FixedIs(s);
    HoldsSelf(s);
    QuestionScan(s, 0, code, 0, false);
    QuestionEnd(s, |s|, 0);
    TernaryIs(s);
  }

  lemma PieceIs(code: Code)
    requires Piece(code)
    ensures WellNested(code) && Trimmed(Render(code)) && QuestionFree(code, false) && NoTop(code, ':')
  {
  }

  lemma LonerIs(code: Code)
    ensures Loner(code) <==> code.Group? && code.open == '(' && code.rest.End?
  {
  }

  lemma LiteralIs(a: Code)
    requires WellNested(a) && IsLiteral(a)
    ensures Piece(a) && Trimmed(Render(a)) && QuestionFree(a, false) && NoTop(a, '+') && NoTop(a, ':') && a != End && !a.Group?
  {
    hide *;
    LiteralShape(a);
    QuoteNotBlank(a.quote);
    RenderLiteral(a.quote, a.body);
    FreeLiteral(a.quote, a.body);
    IsPiece(a);
  }

  lemma LiteralShape(a: Code)
    requires WellNested(a) && IsLiteral(a)
    ensures a.Str? && IsQuote(a.quote) && a == Str(a.quote, a.body, End)
  {
    hide WellFormed, IndexOf, Render;
  }

  lemma FreeLiteral(quote: char, body: Body)
    ensures QuestionFree(Str(quote, body, End), false) && NoTop(Str(quote, body, End), '+') && NoTop(Str(quote, body, End), ':')
  {
  }

  lemma RenderLiteral(quote: char, body: Body)
    requires !IsBlank(quote)
    ensures Trimmed(Render(Str(quote, body, End)))
  {
    hide IsBlank, Render, RenderBody;
    RenderHead(Str(quote, body, End));
    RenderHead(End);
    var w := [quote] + (RenderBody(body) + ([quote] + ""));
    assert w[0] == quote && w[|w| - 1] == quote;
  }

  /** An operand with a unary plus after a literal raises instead of being refused: it leaves an empty operand. */
  lemma UnaryPlusRaises(a: Code, b: Code)
    requires WellNested(a) && IsLiteral(a) && Piece(b)
    ensures IsFixed(Render(Append(a, Spaced('+', Plain('+', b))))) == Raises
  {
    hide *;
    var code := Append(a, Spaced('+', Plain('+', b)));
    LiteralIs(a);
    PlusPiece(b);
    PieceIs(Plain('+', b));
    Follow(a, '+', Plain('+', b));
    PlusSpaced(Plain('+', b));
    FreeAppend(a, Spaced('+', Plain('+', b)), false);
    MarksAppend(a, Spaced('+', Plain('+', b)));
    IsPiece(code);
    Ready(code);
    OperandsAreCut(code);
    CutAtPlus(a, Plain('+', b));
    CutUnary(b);
    PlainLiteralIff(a);
    FirstTwo(Render(a), "", Stripped(Cut(b)));
  }

  lemma PlusPiece(b: Code)
    requires Piece(b)
    ensures Piece(Plain('+', b))
  {
    hide WellNested;
    assert WellNested(Plain('+', b)) by { PlusNested(b); }
    var w := ['+'] + Render(b);
    assert w[0] == '+' && w[|w| - 1] == Render(b)[|Render(b)| - 1];
    FreeAfter(b);
  }

  lemma PlusNested(b: Code)
    requires WellNested(b)
    ensures WellNested(Plain('+', b))
  {
  }

  lemma FreeAfter(b: Code)
    requires QuestionFree(b, false)
    ensures QuestionFree(Plain('+', b), false)
  {
  }

  lemma IsPiece(code: Code)
    requires WellNested(code) && Trimmed(Render(code)) && QuestionFree(code, false) && NoTop(code, ':')
    ensures Piece(code)
  {
  }

  lemma FirstTwo(a: string, b: string, rest: seq<string>)
    requires PlainLiteral(a) == Yes && b == ""
    ensures AllPlain([a] + ([b] + rest)) == Raises
  {
    hide IndexOf, StringEnd;
    assert ([a] + ([b] + rest))[1..] == [b] + rest;
  }
}
