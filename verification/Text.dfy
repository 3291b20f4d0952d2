/** The string operations the modelled code takes from its runtime: indexOf, lastIndexOf, the trims,
    split, join and decimal rendering. Positions are the source's own numbers, with -1 for "not found". */
module Text {

  /** Concatenation is associative. */
  lemma Regroup<T>(a: seq<T>, b: seq<T>, c: seq<T>)
    ensures a + (b + c) == a + b + c
  {
  }

  lemma RegroupFour<T>(a: seq<T>, b: seq<T>, c: seq<T>, d: seq<T>)
    ensures a + (b + c + d) == a + b + c + d
  {
  }

  /** The empty sequence adds nothing. */
  lemma NothingAdded<T>(a: seq<T>)
    ensures a + [] == a && [] + a == a
  {
  }

  predicate OccursAt(s: string, pat: string, k: int) {
    0 <= k && k + |pat| <= |s| && s[k..k + |pat|] == pat
  }

  /** The first occurrence of `pat` at or after `from`, or -1. */
  function IndexOf(s: string, pat: string, from: nat): (r: int)
    ensures r == -1 || (from <= r && OccursAt(s, pat, r))
    ensures forall k :: from <= k && (r == -1 || k < r) ==> !OccursAt(s, pat, k)
    decreases |s| - from
  {
    if from + |pat| > |s| then -1
    else if OccursAt(s, pat, from) then from
    else IndexOf(s, pat, from + 1)
  }

  /** The last occurrence of `c` at or before `from`, or -1. */
  function LastIndexOf(s: string, c: char, from: int): (r: int)
    requires -1 <= from < |s|
    ensures -1 <= r <= from
    ensures r != -1 ==> s[r] == c
    ensures forall k :: r < k <= from ==> s[k] != c
    decreases from + 1
  {
    if from == -1 then -1
    else if s[from] == c then from
    else LastIndexOf(s, c, from - 1)
  }

  /** Line terminators of ECMA-262: LF, CR, U+2028, U+2029. */
  predicate IsTerminator(c: char) {
    c as int in {10, 13, 0x2028, 0x2029}
  }

  /** What String.prototype.trim removes. */
  predicate IsSpace(c: char) {
    var n := c as int;
    IsTerminator(c) || n in {9, 11, 12, 32, 0xA0, 0x1680, 0x202F, 0x205F, 0x3000, 0xFEFF} || 0x2000 <= n <= 0x200A
  }

  lemma SpacesAre(c: char)
    ensures IsSpace(c) <==> c as int in {0x9, 0xA, 0xB, 0xC, 0xD, 0x20, 0xA0, 0x1680, 0x2000, 0x2001, 0x2002, 0x2003, 0x2004, 0x2005,
                                         0x2006, 0x2007, 0x2008, 0x2009, 0x200A, 0x2028, 0x2029, 0x202F, 0x205F, 0x3000, 0xFEFF}
  {
  }

  predicate AllSpace(s: string) {
    forall k :: 0 <= k < |s| ==> IsSpace(s[k])
  }

  /** The length of the leading run of characters in `p`. */
  function LeadRun(s: string, p: char -> bool): (n: nat)
    ensures n <= |s|
    ensures forall k :: 0 <= k < n ==> p(s[k])
    ensures n < |s| ==> !p(s[n])
  {
    if s == "" || !p(s[0]) then 0 else 1 + LeadRun(s[1..], p)
  }

  /** The length of `s` without its trailing run of characters in `p`. */
  function TailStart(s: string, p: char -> bool): (n: nat)
    ensures n <= |s|
    ensures forall k :: n <= k < |s| ==> p(s[k])
    ensures n > 0 ==> !p(s[n - 1])
  {
    if s == "" || !p(s[|s| - 1]) then |s| else TailStart(s[..|s| - 1], p)
  }

  function TrimStart(s: string): string { s[LeadRun(s, IsSpace)..] }

  function TrimEnd(s: string): string { s[..TailStart(s, IsSpace)] }

  function Trim(s: string): string { TrimEnd(TrimStart(s)) }

  /** A string with no space at either end is its own trim. */
  lemma TrimFixed(s: string)
    requires s == "" || (!IsSpace(s[0]) && !IsSpace(s[|s| - 1]))
    ensures Trim(s) == s
  {
    assert LeadRun(s, IsSpace) == 0;
    assert TailStart(s, IsSpace) == |s|;
  }

  /** The trim is what lies between the first and the last character that is no space. */
  lemma TrimIs(s: string, a: nat, b: nat)
    requires a < b <= |s| && AllSpace(s[..a]) && AllSpace(s[b..])
    requires !IsSpace(s[a]) && !IsSpace(s[b - 1])
    ensures Trim(s) == s[a..b]
  {
    hide IsSpace;
    assert forall k :: 0 <= k < a ==> s[..a][k] == s[k];
    assert forall k :: b <= k < |s| ==> s[b..][k - b] == s[k];
    assert LeadRun(s, IsSpace) == a;
    assert TailStart(s[a..], IsSpace) == b - a;
  }

  lemma TrimBlank(s: string)
    requires AllSpace(s)
    ensures Trim(s) == ""
  {
    hide IsSpace;
    assert LeadRun(s, IsSpace) == |s|;
  }

  function Digit(n: nat): char
    requires n < 10
  {
    "0123456789"[n]
  }

  function Decimal(n: nat): string {
    if n < 10 then [Digit(n)] else Decimal(n / 10) + [Digit(n % 10)]
  }

  /** String.prototype.split on a one-character separator. */
  function Split(s: string, sep: char): (parts: seq<string>)
    ensures |parts| >= 1
    decreases |s|
  {
    var k := IndexOf(s, [sep], 0);
    if k == -1 then [s] else [s[..k]] + Split(s[k + 1..], sep)
  }

  function Join(parts: seq<string>, sep: string): string {
    if parts == [] then "" else if |parts| == 1 then parts[0] else parts[0] + sep + Join(parts[1..], sep)
  }

  predicate Lacks(s: string, c: char) {
    forall k :: 0 <= k < |s| ==> s[k] != c
  }

  /** A one-character search finds exactly the positions of that character. */
  lemma OneChar(s: string, c: char)
    ensures forall k :: OccursAt(s, [c], k) <==> 0 <= k < |s| && s[k] == c
  {
    forall k | 0 <= k < |s| ensures OccursAt(s, [c], k) <==> s[k] == c {
      assert s[k..k + 1] == [s[k]];
    }
  }

  lemma {:induction false} SplitLacks(s: string, sep: char)
    ensures forall k :: 0 <= k < |Split(s, sep)| ==> Lacks(Split(s, sep)[k], sep)
    decreases |s|
  {
    OneChar(s, sep);
    var k := IndexOf(s, [sep], 0);
    assert forall j :: 0 <= j < (if k == -1 then |s| else k) ==> !OccursAt(s, [sep], j);
    if k != -1 { SplitLacks(s[k + 1..], sep); }
  }

  /** Splitting a join gives the parts back when no part holds the separator. */
  lemma {:induction false} SplitJoin(parts: seq<string>, sep: char)
    requires parts != []
    requires forall k :: 0 <= k < |parts| ==> Lacks(parts[k], sep)
    ensures Split(Join(parts, [sep]), sep) == parts
  {
    var a := parts[0];
    assert Lacks(a, sep);
    if |parts| > 1 {
      var rest := Join(parts[1..], [sep]);
      SplitJoin(parts[1..], sep);
      SplitFirst(a, sep, rest);
      assert [a] + parts[1..] == parts;
    } else {
      OneChar(a, sep);
    }
  }

  lemma SplitFirst(a: string, sep: char, rest: string)
    requires Lacks(a, sep)
    ensures Split(a + [sep] + rest, sep) == [a] + Split(rest, sep)
  {
    var s := a + [sep] + rest;
    OneChar(s, sep);
    assert forall k :: 0 <= k < |a| ==> s[k] == a[k];
    assert OccursAt(s, [sep], |a|);
    assert IndexOf(s, [sep], 0) == |a|;
    assert s[..|a|] == a && s[|a| + 1..] == rest;
  }
}
