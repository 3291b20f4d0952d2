/** When is the message of a log call a fixed string: split_ternary and is_fixed_message of
    scripts/log-message-literal-ratchet.py. */
module FixedMessage {
  import opened Text
  import opened LogRatchet
  import opened NestedCode

  /** `Raises` is the IndexError an empty operand ends in. */
  datatype Verdict = Yes | No | Raises

  datatype Ternary = NoTernary | Ternary(cond: string, yes: string, no: string)

  /** is_plain_literal. The empty string passes the test of its first character and fails in skip_string. */
  function PlainLiteral(operand: string): Verdict {
    if operand == "" then Raises
    else if !IsQuote(operand[0]) then No
    else if operand[0] == '`' && IndexOf(operand, "${", 0) != -1 then No
    else if StringEnd(operand, 1, operand[0]) == |operand| then Yes else No
  }

  function AllPlain(operands: seq<string>): Verdict {
    if operands == [] then Yes
    else
      var v := PlainLiteral(operands[0]);
      if v == Yes then AllPlain(operands[1..]) else v
  }

  predicate NextIsDotOrQuestion(arg: string, i: nat) {
    i + 1 < |arg| && (arg[i + 1] == '.' || arg[i + 1] == '?')
  }

  /** The first top-level '?' from `i` on that is no part of "?." or "??", or -1. */
  function Question(arg: string, i: nat, depth: int): (q: int)
    requires i <= |arg| + 1
    ensures q == -1 || i <= q < |arg|
    decreases |arg| + 1 - i
  {
    if i >= |arg| then -1
    else if IsQuote(arg[i]) then Question(arg, StringEnd(arg, i + 1, arg[i]), depth)
    else if IsOpener(arg[i]) then Question(arg, i + 1, depth + 1)
    else if IsCloser(arg[i]) then Question(arg, i + 1, depth - 1)
    else if depth == 0 && arg[i] == '?' && !NextIsDotOrQuestion(arg, i) && !(i > 0 && arg[i - 1] == '?') then i
    else Question(arg, i + 1, depth)
  }

  /** The top-level ':' that closes the '?' before `i`, or -1. */
  function Colon(arg: string, i: nat, depth: int, nested: int): (c: int)
    requires i <= |arg| + 1
    ensures c == -1 || i <= c < |arg|
    decreases |arg| + 1 - i
  {
    if i >= |arg| then -1
    else if IsQuote(arg[i]) then Colon(arg, StringEnd(arg, i + 1, arg[i]), depth, nested)
    else if IsOpener(arg[i]) then Colon(arg, i + 1, depth + 1, nested)
    else if IsCloser(arg[i]) then Colon(arg, i + 1, depth - 1, nested)
    else if depth == 0 && arg[i] == '?' && !NextIsDotOrQuestion(arg, i) then Colon(arg, i + 1, depth, nested + 1)
    else if depth == 0 && arg[i] == ':' then (if nested == 0 then i else Colon(arg, i + 1, depth, nested - 1))
    else Colon(arg, i + 1, depth, nested)
  }

  function TernaryOf(arg: string): Ternary {
    var q := Question(arg, 0, 0);
    if q == -1 then NoTernary
    else
      var c := Colon(arg, q + 1, 0, 0);
      if c == -1 then NoTernary else Ternary(Strip(arg[..q]), Strip(arg[q + 1..c]), Strip(arg[c + 1..]))
  }

  /** One pair of parentheses around everything. */
  predicate Wrapped(arg: string) {
    arg != "" && arg[0] == '(' && arg[|arg| - 1] == ')' && BalancedEnd(arg, 0, 0, '(', ')') == |arg|
  }

  function IsFixed(raw: string): Verdict
    decreases |raw|
  {
    var arg := Strip(raw);
    if Wrapped(arg) then IsFixed(arg[1..|arg| - 1])
    else
      var t := TernaryOf(arg);
      if t.NoTernary? then AllPlain(OperandsOf(arg))
      else
        var v := IsFixed(t.yes);
        if v == Yes then IsFixed(t.no) else v
  }

  method SplitTernary(arg: string) returns (t: Ternary)
    ensures t == TernaryOf(arg)
  {
    hide *;
    var depth, i, q := 0, 0, -1;
    while i < |arg|
      invariant i <= |arg| + 1 && q == -1
      invariant Question(arg, i, depth) == Question(arg, 0, 0)
    {
      QuestionStep(arg, i, depth);
      var c := arg[i];
      if IsQuote(c) {
        i := SkipString(arg, i);
        continue;
      }
      if IsOpener(c) {
        depth := depth + 1;
      } else if IsCloser(c) {
        depth := depth - 1;
      } else if depth == 0 && c == '?' && !NextIsDotOrQuestion(arg, i) && !(i > 0 && arg[i - 1] == '?') {
        q := i;
        break;
      }
      i := i + 1;
    }
    if q == -1 {
      QuestionEnd(arg, i, depth);
      TernaryIs(arg);
      return NoTernary;
    }
    TernaryIs(arg);
    depth, i := 0, q + 1;
    var nested := 0;
    while i < |arg|
      invariant q < i <= |arg| + 1
      invariant Colon(arg, i, depth, nested) == Colon(arg, q + 1, 0, 0)
    {
      ColonStep(arg, i, depth, nested);
      var c := arg[i];
      if IsQuote(c) {
        i := SkipString(arg, i);
        continue;
      }
      if IsOpener(c) {
        depth := depth + 1;
      } else if IsCloser(c) {
        depth := depth - 1;
      } else if depth == 0 && c == '?' && !NextIsDotOrQuestion(arg, i) {
        nested := nested + 1;
      } else if depth == 0 && c == ':' {
        if nested == 0 {
          return Ternary(Strip(arg[..q]), Strip(arg[q + 1..i]), Strip(arg[i + 1..]));
        }
        nested := nested - 1;
      }
      i := i + 1;
    }
    ColonEnd(arg, i, depth, nested);
    return NoTernary;
  }

  lemma QuestionStep(arg: string, i: nat, depth: int)
    requires i < |arg|
    ensures var c := arg[i];
            && (IsQuote(c) ==> Question(arg, i, depth) == Question(arg, StringEnd(arg, i + 1, c), depth))
            && (!IsQuote(c) && IsOpener(c) ==> Question(arg, i, depth) == Question(arg, i + 1, depth + 1))
            && (!IsQuote(c) && !IsOpener(c) && IsCloser(c) ==> Question(arg, i, depth) == Question(arg, i + 1, depth - 1))
            && (!IsQuote(c) && !IsOpener(c) && !IsCloser(c) ==>
                var found := depth == 0 && c == '?' && !NextIsDotOrQuestion(arg, i) && !(i > 0 && arg[i - 1] == '?');
                Question(arg, i, depth) == if found then i else Question(arg, i + 1, depth))
  {
    hide StringEnd;
  }

  lemma QuestionEnd(arg: string, i: nat, depth: int)
    requires |arg| <= i <= |arg| + 1
    ensures Question(arg, i, depth) == -1
  {
  }

  lemma ColonStep(arg: string, i: nat, depth: int, nested: int)
    requires i < |arg|
    ensures var c := arg[i];
            && (IsQuote(c) ==> Colon(arg, i, depth, nested) == Colon(arg, StringEnd(arg, i + 1, c), depth, nested))
            && (!IsQuote(c) && IsOpener(c) ==> Colon(arg, i, depth, nested) == Colon(arg, i + 1, depth + 1, nested))
            && (!IsQuote(c) && !IsOpener(c) && IsCloser(c) ==> Colon(arg, i, depth, nested) == Colon(arg, i + 1, depth - 1, nested))
            && (!IsQuote(c) && !IsOpener(c) && !IsCloser(c) ==>
                var opens, closes := depth == 0 && c == '?' && !NextIsDotOrQuestion(arg, i), depth == 0 && c == ':';
                Colon(arg, i, depth, nested) ==
                if opens then Colon(arg, i + 1, depth, nested + 1)
                else if closes then (if nested == 0 then i else Colon(arg, i + 1, depth, nested - 1))
                else Colon(arg, i + 1, depth, nested))
  {
    hide StringEnd;
  }

  lemma ColonEnd(arg: string, i: nat, depth: int, nested: int)
    requires |arg| <= i <= |arg| + 1
    ensures Colon(arg, i, depth, nested) == -1
  {
  }

  lemma TernaryIs(arg: string)
    ensures var q := Question(arg, 0, 0);
            && (q == -1 ==> TernaryOf(arg) == NoTernary)
            && (q != -1 ==>
                var c := Colon(arg, q + 1, 0, 0);
                TernaryOf(arg) == if c == -1 then NoTernary else Ternary(Strip(arg[..q]), Strip(arg[q + 1..c]), Strip(arg[c + 1..])))
  {
    hide Question, Colon, Strip;
  }

  lemma FixedIs(raw: string)
    ensures var arg := Strip(raw); var t := TernaryOf(arg);
            && |arg| <= |raw|
            && (Wrapped(arg) ==> |arg| >= 2 && IsFixed(raw) == IsFixed(arg[1..|arg| - 1]))
            && (!Wrapped(arg) && t.NoTernary? ==> IsFixed(raw) == AllPlain(OperandsOf(arg)))
            && (!Wrapped(arg) && t.Ternary? ==>
                |t.yes| < |arg| && |t.no| < |arg| && IsFixed(raw) == if IsFixed(t.yes) == Yes then IsFixed(t.no) else IsFixed(t.yes))
  {
    hide BalancedEnd, Question, Colon, AllPlain, OperandsOf;
  }

  lemma WrappedIs(arg: string)
    ensures Wrapped(arg) <==> arg != "" && arg[0] == '(' && arg[|arg| - 1] == ')' && BalancedEnd(arg, 0, 0, '(', ')') == |arg|
  {
  }

  method IsFixedMessage(raw: string) returns (v: Verdict)
    ensures v == IsFixed(raw)
    decreases |raw|
  {
    hide *;
    var arg := Strip(raw);
    FixedIs(raw);
    WrappedIs(arg);
    if arg != "" && arg[0] == '(' && arg[|arg| - 1] == ')' {
      var end := SkipBalanced(arg, 0, '(', ')');
      if end == |arg| {
        v := IsFixedMessage(arg[1..|arg| - 1]);
        return;
      }
    }
    var t := SplitTernary(arg);
    if t.Ternary? {
      v := IsFixedMessage(t.yes);
      if v == Yes {
        v := IsFixedMessage(t.no);
      }
      return;
    }
    var parts := SplitPlus(arg);
    v := AllLiterals(parts);
  }

  method AllLiterals(parts: seq<string>) returns (v: Verdict)
    ensures v == AllPlain(parts)
  {
    hide PlainLiteral;
    for k := 0 to |parts|
      invariant AllPlain(parts[k..]) == AllPlain(parts)
    {
      assert parts[k..][1..] == parts[k + 1..];
      v := PlainLiteral(parts[k]);
      if v != Yes {
        return;
      }
    }
    return Yes;
  }

  /** Where the decision raises: at an empty operand with nothing but literals before it. */
  lemma {:induction false} RaisesIff(operands: seq<string>)
    ensures AllPlain(operands) == Raises <==>
            exists k :: 0 <= k < |operands| && operands[k] == "" && forall j :: 0 <= j < k ==> PlainLiteral(operands[j]) == Yes
  {
    if operands != [] {
      var rest := operands[1..];
      RaisesIff(rest);
      hide StringEnd, IndexOf;
      if k :| 0 <= k < |operands| && operands[k] == "" && forall j :: 0 <= j < k ==> PlainLiteral(operands[j]) == Yes {
        if k > 0 {
          assert PlainLiteral(operands[0]) == Yes;
          assert rest[k - 1] == "";
          forall j | 0 <= j < k - 1 ensures PlainLiteral(rest[j]) == Yes { assert PlainLiteral(operands[j + 1]) == Yes; }
        }
      }
      if AllPlain(rest) == Raises && PlainLiteral(operands[0]) == Yes {
        var k :| 0 <= k < |rest| && rest[k] == "" && forall j :: 0 <= j < k ==> PlainLiteral(rest[j]) == Yes;
        assert operands[k + 1] == "";
        forall j | 0 <= j < k + 1 ensures PlainLiteral(operands[j]) == Yes { if j > 0 { assert PlainLiteral(rest[j - 1]) == Yes; } }
      }
    }
  }
}
