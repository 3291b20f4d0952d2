/** The source-text scanners of scripts/log-message-literal-ratchet.py: skipping strings and balanced brackets, and
    cutting a call into its arguments. */
module LogRatchet {
  import opened Text

  predicate IsQuote(c: char) { c == '\'' || c == '"' || c == '`' }

  predicate IsOpener(c: char) { c == '(' || c == '[' || c == '{' }

  predicate IsCloser(c: char) { c == ')' || c == ']' || c == '}' }

  /** What str.strip removes. */
  predicate IsBlank(c: char) {
    var n := c as int;
    9 <= n <= 13 || 28 <= n <= 32 || n in {0x85, 0xA0, 0x1680, 0x2028, 0x2029, 0x202F, 0x205F, 0x3000} || 0x2000 <= n <= 0x200A
  }

  lemma BlanksAre(c: char)
    ensures IsBlank(c) <==> c as int in {0x9, 0xA, 0xB, 0xC, 0xD, 0x1C, 0x1D, 0x1E, 0x1F, 0x20, 0x85, 0xA0, 0x1680, 0x2000, 0x2001, 0x2002,
                                         0x2003, 0x2004, 0x2005, 0x2006, 0x2007, 0x2008, 0x2009, 0x200A, 0x2028, 0x2029, 0x202F, 0x205F, 0x3000}
  {
  }

  function Strip(s: string): string {
    var t := s[LeadRun(s, IsBlank)..];
    t[..TailStart(t, IsBlank)]
  }

  /** The position of the next newline at or after `i`, or the end. */
  function LineEnd(t: string, i: nat): (r: nat)
    requires i <= |t|
    ensures i <= r <= |t|
  {
    var k := IndexOf(t, "\n", i);
    if k == -1 then |t| else k
  }

  /** The position after the next comment end at or after `i`, or the end. */
  function CommentEnd(t: string, i: nat): (r: nat)
    requires i <= |t|
    ensures i <= r <= |t|
  {
    var k := IndexOf(t, "*/", i);
    if k == -1 then |t| else k + 2
  }

  // ---- where the scanners stop -------------------------------------------

  /** From inside a string opened with `q`: the position after its closing quote. A substitution of a template literal
      is skipped as balanced text. The result is past the start, and beyond the end by at most one. */
  function StringEnd(t: string, i: nat, q: char): (r: nat)
    requires i <= |t| + 1
    ensures i <= r <= |t| + 1
    ensures i < |t| ==> i < r
    decreases |t| + 1 - i
  {
    if i >= |t| then i
    else if t[i] == '\\' then StringEnd(t, i + 2, q)
    else if q == '`' && t[i] == '$' && i + 1 < |t| && t[i + 1] == '{' then
      StringEnd(t, BalancedEnd(t, i + 1, 0, '{', '}'), q)
    else if t[i] == q then i + 1
    else StringEnd(t, i + 1, q)
  }

  /** From `i` at bracket depth `depth`: the position after the `close` that brings the depth to 0, strings and comments
      skipped. */
  function BalancedEnd(t: string, i: nat, depth: int, open: char, close: char): (r: nat)
    requires i <= |t| + 1
    ensures i <= r <= |t| + 1
    ensures i < |t| ==> i < r
    decreases |t| + 1 - i
  {
    if i >= |t| then i
    else if IsQuote(t[i]) then BalancedEnd(t, StringEnd(t, i + 1, t[i]), depth, open, close)
    else if t[i] == '/' && i + 1 < |t| && t[i + 1] == '/' then BalancedEnd(t, LineEnd(t, i + 1), depth, open, close)
    else if t[i] == '/' && i + 1 < |t| && t[i + 1] == '*' then BalancedEnd(t, CommentEnd(t, i + 2), depth, open, close)
    else if t[i] == open then BalancedEnd(t, i + 1, depth + 1, open, close)
    else if t[i] == close then (if depth - 1 == 0 then i + 1 else BalancedEnd(t, i + 1, depth - 1, open, close))
    else BalancedEnd(t, i + 1, depth, open, close)
  }

  lemma LineEndSkips(t: string, i: nat)
    requires i + 1 < |t| && t[i] == '/'
    ensures LineEnd(t, i) == LineEnd(t, i + 1)
  {
    OneChar(t, '\n');
    var a, b := IndexOf(t, "\n", i), IndexOf(t, "\n", i + 1);
    assert a != -1 ==> OccursAt(t, "\n", a);
    assert b != -1 ==> OccursAt(t, "\n", b);
  }

  /** One round of the bracket scanner. */
  lemma BalancedRound(t: string, i: nat, depth: int, open: char, close: char)
    requires i < |t|
    ensures var line, block := IndexOf(t, "\n", i), IndexOf(t, "*/", i + 2); var c := t[i];
            var slash := c == '/' && i + 1 < |t|;
            && (IsQuote(c) ==> BalancedEnd(t, i, depth, open, close) == BalancedEnd(t, StringEnd(t, i + 1, c), depth, open, close))
            && (!IsQuote(c) && slash && t[i + 1] == '/' ==>
                  var k := if line < 0 then |t| else line;
                  i < k <= |t| && BalancedEnd(t, i, depth, open, close) == BalancedEnd(t, k, depth, open, close))
            && (!IsQuote(c) && slash && t[i + 1] == '*' ==>
                  var k := if block < 0 then |t| else block + 2;
                  i < k <= |t| && BalancedEnd(t, i, depth, open, close) == BalancedEnd(t, k, depth, open, close))
            && (!IsQuote(c) && !(slash && (t[i + 1] == '/' || t[i + 1] == '*')) ==>
                  BalancedEnd(t, i, depth, open, close) ==
                  if c == open then BalancedEnd(t, i + 1, depth + 1, open, close)
                  else if c == close then (if depth - 1 == 0 then i + 1 else BalancedEnd(t, i + 1, depth - 1, open, close))
                  else BalancedEnd(t, i + 1, depth, open, close))
  {
    hide StringEnd;
    if t[i] == '/' && i + 1 < |t| { LineEndSkips(t, i); }
  }

  lemma BalancedStops(t: string, i: nat, depth: int, open: char, close: char)
    requires |t| <= i <= |t| + 1
    ensures BalancedEnd(t, i, depth, open, close) == i
  {
  }

  /** skip_string: with a quote at `start`, the loop ends where the specification says the literal ends. */
  method SkipString(text: string, start: nat) returns (i: nat)
    requires start < |text|
    ensures i == StringEnd(text, start + 1, text[start])
    ensures start < i <= |text| + 1
    decreases |text| - start, 0
  {
    var q := text[start];
    i := start + 1;
    while i < |text|
      invariant start < i <= |text| + 1
      invariant StringEnd(text, i, q) == StringEnd(text, start + 1, q)
    {
      var c := text[i];
      if c == '\\' {
        i := i + 2;
        continue;
      }
      if q == '`' && c == '$' && i + 1 < |text| && text[i + 1] == '{' {
        i := SkipBalanced(text, i + 1, '{', '}');
        continue;
      }
      if c == q {
        return i + 1;
      }
      i := i + 1;
    }
  }

  /** skip_balanced: the same for the bracket at `start`, literals and comments stepped over. */
  method SkipBalanced(text: string, start: nat, open: char, close: char) returns (i: nat)
    requires start < |text|
    ensures i == BalancedEnd(text, start, 0, open, close)
    ensures start < i <= |text| + 1
    decreases |text| - start, 1
  {
    hide *;
    var depth := 0;
    i := start;
    while i < |text|
      invariant start <= i <= |text| + 1
      invariant BalancedEnd(text, i, depth, open, close) == BalancedEnd(text, start, 0, open, close)
    {
      BalancedRound(text, i, depth, open, close);
      var c := text[i];
      if IsQuote(c) {
        i := SkipString(text, i);
        continue;
      }
      if c == '/' && i + 1 < |text| && text[i + 1] == '/' {
        var k := IndexOf(text, "\n", i);
        i := if k < 0 then |text| else k;
        continue;
      }
      if c == '/' && i + 1 < |text| && text[i + 1] == '*' {
        var j := IndexOf(text, "*/", i + 2);
        i := if j < 0 then |text| else j + 2;
        continue;
      }
      if c == open {
        depth := depth + 1;
      } else if c == close {
        depth := depth - 1;
        if depth == 0 {
          return i + 1;
        }
      }
      i := i + 1;
    }
    BalancedStops(text, i, depth, open, close);
  }

  // ---- cutting at a top-level separator ----------------------------------

  /** The pieces from position `i` on, the current piece having begun at `cur`. An empty last piece is kept for operands
      and dropped for arguments. */
  function Pieces(s: string, i: nat, depth: int, cur: nat, sep: char, keepEmpty: bool): seq<string>
    requires i <= |s| + 1 && cur <= |s| && cur <= i
    decreases |s| + 1 - i
  {
    if i >= |s| then
      var tail := Strip(s[cur..]);
      if tail != "" || keepEmpty then [tail] else []
    else if IsQuote(s[i]) then Pieces(s, StringEnd(s, i + 1, s[i]), depth, cur, sep, keepEmpty)
    else if IsOpener(s[i]) then Pieces(s, i + 1, depth + 1, cur, sep, keepEmpty)
    else if IsCloser(s[i]) then Pieces(s, i + 1, depth - 1, cur, sep, keepEmpty)
    else if s[i] == sep && depth == 0 then [Strip(s[cur..i])] + Pieces(s, i + 1, depth, i + 1, sep, keepEmpty)
    else Pieces(s, i + 1, depth, cur, sep, keepEmpty)
  }

  /** The text between the bracket at `start` and the one that closes it, as the source slices it. */
  function Inner(t: string, start: nat): string
    requires start < |t|
  {
    var end := BalancedEnd(t, start, 0, '(', ')');
    if end - 1 < start + 1 then "" else t[start + 1..end - 1]
  }

  function ArgsOf(t: string, start: nat): seq<string>
    requires start < |t|
  {
    Pieces(Inner(t, start), 0, 0, 0, ',', false)
  }

  function OperandsOf(arg: string): seq<string> {
    Pieces(arg, 0, 0, 0, '+', true)
  }

  /** The loop the two splitters share. */
  method SplitTop(s: string, sep: char, keepEmpty: bool) returns (parts: seq<string>)
    requires !IsQuote(sep) && !IsOpener(sep) && !IsCloser(sep)
    ensures parts == Pieces(s, 0, 0, 0, sep, keepEmpty)
  {
    parts := [];
    var depth := 0;
    var i := 0;
    var cur := 0;
    while i < |s|
      invariant cur <= i <= |s| + 1 && cur <= |s|
      invariant parts + Pieces(s, i, depth, cur, sep, keepEmpty) == Pieces(s, 0, 0, 0, sep, keepEmpty)
    {
      var c := s[i];
      if IsQuote(c) {
        i := SkipString(s, i);
        continue;
      }
      if IsOpener(c) {
        depth := depth + 1;
      } else if IsCloser(c) {
        depth := depth - 1;
      } else if c == sep && depth == 0 {
        Regroup(parts, [Strip(s[cur..i])], Pieces(s, i + 1, depth, i + 1, sep, keepEmpty));
        parts := parts + [Strip(s[cur..i])];
        cur := i + 1;
      }
      i := i + 1;
    }
    var tail := Strip(s[cur..]);
    if tail != "" || keepEmpty {
      parts := parts + [tail];
    }
  }

  /** split_args: find the end of the call, then cut between. */
  method SplitArgs(text: string, start: nat) returns (args: seq<string>)
    requires start < |text|
    ensures args == ArgsOf(text, start)
  {
    var end := SkipBalanced(text, start, '(', ')');
    var inner := if end - 1 < start + 1 then "" else text[start + 1..end - 1];
    args := SplitTop(inner, ',', false);
  }

  /** split_plus: the same cut at '+', empty operands kept. */
  method SplitPlus(arg: string) returns (parts: seq<string>)
    ensures parts == OperandsOf(arg)
  {
    parts := SplitTop(arg, '+', true);
  }
}
