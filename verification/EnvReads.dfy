/** What the .env reader makes of a text, told from the text alone (src/env.ts:17-44). */
module EnvReads {
  import opened Options
  import opened Text
  import opened EnvFile
  import E = EnvLens

  /** Nothing at the ends that a trim would take off. */
  predicate Tight(s: string) {
    s == "" || (!IsSpace(s[0]) && !IsSpace(s[|s| - 1]))
  }

  predicate IsQuote(c: char) { c == '"' || c == '\'' }

  /** Text that begins and ends with one and the same quote. */
  predicate InQuotes(s: string) {
    s != "" && IsQuote(s[0]) && s[|s| - 1] == s[0]
  }

  /** What can stand left of the sign. */
  predicate KeyText(k: string) {
    Tight(k) && Lacks(k, '=') && (k != "" ==> k[0] != '#')
  }

  /** The line `key = value`, with blanks wherever the reader allows them. */
  function Line(a: string, k: string, b: string, c: string, w: string, d: string): string {
    a + (k + (b + ("=" + (c + (w + d)))))
  }

  predicate Blanks(a: string, b: string, c: string, d: string) {
    AllSpace(a) && AllSpace(b) && AllSpace(c) && AllSpace(d)
  }

  lemma TrimPadded(a: string, w: string, d: string)
    requires AllSpace(a) && AllSpace(d) && Tight(w)
    ensures Trim(a + w + d) == w
  {
    hide IsSpace;
    var s := a + w + d;
    if w == "" {
      assert AllSpace(s);
      TrimBlank(s);
    } else {
      assert s[..|a|] == a && s[|a| + |w|..] == d && s[|a|..|a| + |w|] == w;
      assert s[|a|] == w[0] && s[|a| + |w| - 1] == w[|w| - 1];
      TrimIs(s, |a|, |a| + |w|);
    }
  }

  lemma NoSpaceSign()
    ensures !IsSpace('=') && !IsSpace('#') && AllSpace("")
  {
  }

  /** The trimmed line, from the key or the sign to the end of the value or the sign. */
  function Core(k: string, b: string, c: string, w: string): string {
    if k == "" then (if w == "" then "=" else "=" + (c + w))
    else if w == "" then k + (b + "=") else k + (b + ("=" + (c + w)))
  }

  lemma LineTrims(a: string, k: string, b: string, c: string, w: string, d: string)
    requires Blanks(a, b, c, d) && KeyText(k) && Tight(w)
    ensures Trim(Line(a, k, b, c, w, d)) == Core(k, b, c, w)
  {
    hide IsSpace, Trim, Lacks;
    NoSpaceSign();
    var core := Core(k, b, c, w);
    var front, back := if k == "" then a + b else a, if w == "" then c + d else d;
    assert Line(a, k, b, c, w, d) == front + core + back;
    assert core[0] == (if k == "" then '=' else k[0]) && core[|core| - 1] == (if w == "" then '=' else w[|w| - 1]);
    TrimPadded(front, core, back);
  }

  /** What stands left and right of the sign in the trimmed line. */
  function Left(k: string, b: string): string { if k == "" then "" else k + b }

  function Right(c: string, w: string): string { if w == "" then "" else c + w }

  lemma SidesTrim(k: string, b: string, c: string, w: string)
    requires AllSpace(b) && AllSpace(c) && Tight(k) && Tight(w)
    ensures Trim(Left(k, b)) == k && Trim(Right(c, w)) == w
  {
    NoSpaceSign();
    hide IsSpace, Trim, Tight, AllSpace;
    assert "" + k + b == k + b && "" + k + "" == k && c + w + "" == c + w && "" + w + "" == w;
    TrimPadded("", k, if k == "" then "" else b);
    TrimPadded(if w == "" then "" else c, w, "");
  }

  lemma CoreIs(k: string, b: string, c: string, w: string)
    requires KeyText(k)
    ensures var t := Core(k, b, c, w);
            && t == Left(k, b) + "=" + Right(c, w) && t != "" && t[0] != '#'
            && t[..|Left(k, b)|] == Left(k, b) && t[|Left(k, b)| + 1..] == Right(c, w)
  {
    hide IsSpace, Lacks;
    var t := Core(k, b, c, w);
    assert t == Left(k, b) + "=" + Right(c, w);
  }

  /** Where the sign stands in the trimmed line, and what stands on either side of it. */
  lemma CoreCuts(k: string, b: string, c: string, w: string)
    requires AllSpace(b) && AllSpace(c) && KeyText(k) && Tight(w)
    ensures var t := Core(k, b, c, w); var eq := IndexOf(t, "=", 0);
            t != "" && t[0] != '#' && eq != -1 && Trim(t[..eq]) == k && Trim(t[eq + 1..]) == w
  {
    hide *;
    KeyIs(k);
    CoreIs(k, b, c, w);
    LeftLacks(k, b);
    E.EqualsAt(Left(k, b), Right(c, w));
    SidesTrim(k, b, c, w);
  }

  lemma KeyIs(k: string)
    requires KeyText(k)
    ensures Tight(k) && Lacks(k, '=')
  {
  }

  lemma LeftLacks(k: string, b: string)
    requires Lacks(k, '=') && AllSpace(b)
    ensures Lacks(Left(k, b), '=')
  {
    NoSpaceSign();
    hide IsSpace;
  }

  /** What a value reads as: the text between the quotes when it is in quotes, a lone quote as nothing, other text as itself. */
  lemma ValueIs(w: string)
    ensures !InQuotes(w) ==> Unquote(w) == w
    ensures |w| == 1 && InQuotes(w) ==> Unquote(w) == ""
    ensures forall q: char, v: string :: IsQuote(q) && w == [q] + v + [q] ==> Unquote(w) == v
  {
    forall q: char, v: string | IsQuote(q) && w == [q] + v + [q] ensures Unquote(w) == v {
      assert w[0] == q && w[|w| - 1] == q && w[1..|w| - 1] == v;
    }
  }

  lemma LineParses(a: string, k: string, b: string, c: string, w: string, d: string)
    requires Blanks(a, b, c, d) && KeyText(k) && Tight(w)
    ensures Parse(Line(a, k, b, c, w, d)) == Some((k, Unquote(w)))
  {
    hide Trim, IndexOf, Unquote, Line, Core, Tight, Lacks;
    LineTrims(a, k, b, c, w, d);
    CoreCuts(k, b, c, w);
  }

  /** A quoted value reads as what stands between its quotes, blanks and all; `k="v"` and `k='v'` with any blanks around key, sign
      and value. */
  lemma QuotedReads(a: string, k: string, b: string, c: string, q: char, v: string, d: string)
    requires Blanks(a, b, c, d) && KeyText(k) && IsQuote(q)
    ensures Parse(Line(a, k, b, c, [q] + v + [q], d)) == Some((k, v))
  {
    var w := [q] + v + [q];
    assert Tight(w) by { assert w[0] == q && w[|w| - 1] == q; }
    hide *;
    LineParses(a, k, b, c, w, d);
    ValueIs(w);
  }

  /** A value that is not in quotes reads as itself. */
  lemma PlainReads(a: string, k: string, b: string, c: string, w: string, d: string)
    requires Blanks(a, b, c, d) && KeyText(k) && Tight(w) && !InQuotes(w)
    ensures Parse(Line(a, k, b, c, w, d)) == Some((k, w))
  {
    hide *;
    LineParses(a, k, b, c, w, d);
    ValueIs(w);
  }

  /** A line gives nothing exactly when it is blank, is a comment after blanks, or has no sign. */
  lemma NothingIff(line: string)
    ensures Parse(line).None? <==>
            || AllSpace(line)
            || (exists i :: 0 <= i < |line| && line[i] == '#' && AllSpace(line[..i]))
            || Lacks(line, '=')
  {
    hide IsSpace;
    var a, t := LeadRun(line, IsSpace), Trim(line);
    assert AllSpace(line[..a]);
    TrimKeeps(line);
    OneChar(t, '=');
    if a == |line| {
      assert AllSpace(line);
    } else {
      assert !IsSpace(line[a]) && t != "" && t[0] == line[a];
      NoSpaceSign();
      if i :| 0 <= i < |line| && line[i] == '#' && AllSpace(line[..i]) {
        assert i <= a;
      }
      if t[0] == '#' { assert line[a] == '#' && AllSpace(line[..a]); }
    }
  }

  /** The trim of a line that is not blank: from its first printing character to its last. */
  lemma TrimSpan(line: string)
    requires !AllSpace(line)
    ensures var a, b := LeadRun(line, IsSpace), TailStart(line, IsSpace);
            && a < b <= |line| && Trim(line) == line[a..b]
            && (forall k :: 0 <= k < a || b <= k < |line| ==> IsSpace(line[k]))
  {
    hide IsSpace, Trim;
    var a, b := LeadRun(line, IsSpace), TailStart(line, IsSpace);
    assert a < |line| && b > a;
    TrimIs(line, a, b);
  }

  lemma TrimKeeps(line: string)
    ensures AllSpace(line) ==> Trim(line) == ""
    ensures !AllSpace(line) ==> var a := LeadRun(line, IsSpace); a < |line| && Trim(line) != "" && Trim(line)[0] == line[a]
    ensures Lacks(line, '=') <==> Lacks(Trim(line), '=')
  {
    NoSpaceSign();
    if AllSpace(line) {
      TrimBlank(line);
      hide Trim, IsSpace;
    } else {
      TrimSpan(line);
      hide Trim, IsSpace, LeadRun, TailStart, AllSpace;
      var a, b := LeadRun(line, IsSpace), TailStart(line, IsSpace);
      SpanLacks(line, a, b);
    }
  }

  lemma SpanLacks(line: string, a: nat, b: nat)
    requires a <= b <= |line| && forall k :: 0 <= k < a || b <= k < |line| ==> IsSpace(line[k])
    ensures Lacks(line, '=') <==> Lacks(line[a..b], '=')
  {
    NoSpaceSign();
    hide IsSpace;
    if !Lacks(line, '=') {
      var k :| 0 <= k < |line| && line[k] == '=';
      assert line[a..b][k - a] == '=';
    }
  }

  // ---- the whole file ----------------------------------------------------

  /** The lines of a text are its pieces between line feeds. */
  lemma {:induction false} LinesAre(s: string)
    ensures Join(Split(s, '\n'), "\n") == s
    ensures forall k :: 0 <= k < |Split(s, '\n')| ==> Lacks(Split(s, '\n')[k], '\n')
    decreases |s|
  {
    SplitLacks(s, '\n');
    hide Lacks;
    var k := IndexOf(s, ['\n'], 0);
    if k != -1 {
      LinesAre(s[k + 1..]);
      assert s[k..k + 1] == "\n";
      assert s == s[..k] + "\n" + s[k + 1..];
      assert Split(s, '\n')[1..] == Split(s[k + 1..], '\n');
    }
  }

  /** Line `i` gives the key its value, and no later line names it. */
  predicate Decides(lines: seq<string>, i: nat, k: string, v: string) {
    && i < |lines| && Parse(lines[i]) == Some((k, v))
    && forall j :: i < j < |lines| ==> !Names(lines[j], k)
  }

  ghost predicate LastSays(lines: seq<string>, k: string, v: string) {
    exists i :: Decides(lines, i, k, v)
  }

  lemma {:induction false} LookupIff(lines: seq<string>, k: string, v: string)
    ensures E.Lookup(lines, k) == Some(v) <==> LastSays(lines, k, v)
  {
    hide Parse;
    if lines != [] {
      var n := |lines| - 1;
      LookupIff(lines[..n], k, v);
      if Names(lines[n], k) {
        if E.Lookup(lines, k) == Some(v) { assert Decides(lines, n, k, v); }
        if i: nat :| Decides(lines, i, k, v) { assert i == n; }
      } else {
        if i: nat :| Decides(lines[..n], i, k, v) { assert Decides(lines, i, k, v); }
        if i: nat :| Decides(lines, i, k, v) { assert Decides(lines[..n], i, k, v); }
      }
    }
  }

  /** A key is read with a value exactly when it is wanted and the last line that names it gives that value. */
  lemma ReadIff(f: File, keys: Option<set<string>>, k: string, v: string)
    ensures var m := Wanted(ReadAll(f), keys);
            k in m && m[k] == v <==>
            f.Present? && (keys.None? || k in keys.value) && LastSays(Split(f.content, '\n'), k, v)
  {
    hide Parse, LastSays, ReadLines;
    if f.Present? {
      var lines := Split(f.content, '\n');
      var all := ReadLines(lines);
      LookupIff(lines, k, v);
      E.ReadIsLookup(lines, k);
      GetIs(all, k, v);
      WantedIs(all, keys, k);
    } else {
      WantedIs(map[], keys, k);
    }
  }

  lemma GetIs(m: map<string, string>, k: string, v: string)
    ensures E.Get(m, k) == Some(v) <==> k in m && m[k] == v
  {
  }

  lemma WantedIs(m: map<string, string>, keys: Option<set<string>>, k: string)
    ensures var w := Wanted(m, keys);
            && (k in w <==> k in m && (keys.None? || k in keys.value))
            && (k in w ==> w[k] == m[k])
  {
  }
}
