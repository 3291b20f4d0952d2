/** What a rendered code block holds: the escaping of src/format.ts and the marks that stand for the blocks. */
module BlockText {
  import opened Text
  import opened CodeBlocks

  /** String.prototype.replace with a global one-character pattern. */
  function ReplaceAll(s: string, c: char, w: string): string {
    if s == "" then "" else (if s[0] == c then w else [s[0]]) + ReplaceAll(s[1..], c, w)
  }

  lemma {:induction false} ReplaceConcat(a: string, b: string, c: char, w: string)
    ensures ReplaceAll(a + b, c, w) == ReplaceAll(a, c, w) + ReplaceAll(b, c, w)
  {
    if a == "" {
      assert a + b == b;
    } else {
      assert (a + b)[1..] == a[1..] + b;
      ReplaceConcat(a[1..], b, c, w);
    }
  }

  function ThreePasses(s: string): string {
    ReplaceAll(ReplaceAll(ReplaceAll(s, '&', "&amp;"), '<', "&lt;"), '>', "&gt;")
  }

  /** The three replacements of the source, the ampersands first, escape each character once. */
  lemma {:induction false} EscapeIsThreePasses(s: string)
    ensures EscapeHtml(s) == ThreePasses(s)
  {
    if s != "" {
      EscapeIsThreePasses(s[1..]);
      assert s == [s[0]] + s[1..];
      PassesConcat([s[0]], s[1..]);
      OneEscaped(s[0]);
      hide ReplaceAll, EscapeChar;
    }
  }

  lemma PassesConcat(a: string, b: string)
    ensures ThreePasses(a + b) == ThreePasses(a) + ThreePasses(b)
  {
    hide ReplaceAll;
    ReplaceConcat(a, b, '&', "&amp;");
    ReplaceConcat(ReplaceAll(a, '&', "&amp;"), ReplaceAll(b, '&', "&amp;"), '<', "&lt;");
    var x, y := ReplaceAll(ReplaceAll(a, '&', "&amp;"), '<', "&lt;"), ReplaceAll(ReplaceAll(b, '&', "&amp;"), '<', "&lt;");
    ReplaceConcat(x, y, '>', "&gt;");
  }

  lemma {:induction false} Untouched(s: string, c: char, w: string)
    requires Lacks(s, c)
    ensures ReplaceAll(s, c, w) == s
  {
    if s != "" {
      assert Lacks(s[1..], c) by { assert forall k :: 0 <= k < |s[1..]| ==> s[1..][k] == s[k + 1]; }
      Untouched(s[1..], c, w);
      assert s == [s[0]] + s[1..];
    }
  }

  lemma One(c: char, d: char, w: string)
    ensures ReplaceAll([c], d, w) == if c == d then w else [c]
  {
    assert [c][1..] == "";
  }

  lemma OneEscaped(c: char)
    ensures ThreePasses([c]) == EscapeChar(c)
  {
    hide ReplaceAll;
    One(c, '&', "&amp;");
    One(c, '<', "&lt;");
    One(c, '>', "&gt;");
    Untouched("&amp;", '<', "&lt;");
    Untouched("&amp;", '>', "&gt;");
    Untouched("&lt;", '>', "&gt;");
  }

  // ---- escaping loses nothing --------------------------------------------

  /** What a reader of HTML makes of the three entities; other text stands for itself. */
  function Unescape(s: string): string {
    if s == "" then ""
    else if OccursAt(s, "&amp;", 0) then "&" + Unescape(s[5..])
    else if OccursAt(s, "&lt;", 0) then "<" + Unescape(s[4..])
    else if OccursAt(s, "&gt;", 0) then ">" + Unescape(s[4..])
    else [s[0]] + Unescape(s[1..])
  }

  lemma Elsewhere(s: string, w: string, k: nat)
    requires k < |w| && (k < |s| ==> s[k] != w[k])
    ensures !OccursAt(s, w, 0)
  {
  }

  lemma UnescapeOne(c: char, rest: string)
    ensures Unescape(EscapeChar(c) + rest) == [c] + Unescape(rest)
  {
    var s := EscapeChar(c) + rest;
    if c == '&' {
      assert s[0..5] == "&amp;" && s[5..] == rest;
    } else if c == '<' {
      assert s[0..4] == "&lt;" && s[4..] == rest;
      Elsewhere(s, "&amp;", 1);
    } else if c == '>' {
      assert s[0..4] == "&gt;" && s[4..] == rest;
      Elsewhere(s, "&amp;", 1);
      Elsewhere(s, "&lt;", 1);
    } else {
      assert s[1..] == rest;
      Elsewhere(s, "&amp;", 0);
      Elsewhere(s, "&lt;", 0);
      Elsewhere(s, "&gt;", 0);
    }
  }

  /** Escaped text holds no markup, and reads back as the text it was. */
  lemma {:induction false} EscapeReadsBack(s: string)
    ensures Unescape(EscapeHtml(s)) == s
    ensures Lacks(EscapeHtml(s), '<') && Lacks(EscapeHtml(s), '>')
  {
    if s != "" {
      EscapeReadsBack(s[1..]);
      UnescapeOne(s[0], EscapeHtml(s[1..]));
      NoMarkup(s[0]);
      hide Unescape, EscapeChar;
      assert s == [s[0]] + s[1..];
    }
  }

  lemma NoMarkup(c: char)
    ensures Lacks(EscapeChar(c), '<') && Lacks(EscapeChar(c), '>')
  {
  }

  /** A block is one element: its language, if any, in the class of the inner one, and its text, without the blanks at the end,
      escaped between the tags. */
  lemma RenderedHolds(lang: string, body: string)
    ensures exists text :: Unescape(text) == TrimEnd(body) && Lacks(text, '<') && Lacks(text, '>') &&
              Rendered(lang, body) == (if lang == "" then "<pre>" + text + "</pre>"
                                       else "<pre><code class=\"language-" + lang + "\">" + text + "</code></pre>")
  {
    EscapeReadsBack(TrimEnd(body));
    hide EscapeHtml, Unescape, TrimEnd;
    var text := EscapeHtml(TrimEnd(body));
    assert Unescape(text) == TrimEnd(body);
  }

  // ---- the marks ---------------------------------------------------------

  function DigitValue(c: char): nat {
    if '0' <= c <= '9' then (c - '0') as nat else 0
  }

  function Value(s: string): nat {
    if s == "" then 0 else 10 * Value(s[..|s| - 1]) + DigitValue(s[|s| - 1])
  }

  lemma DigitIs(n: nat)
    requires n < 10
    ensures DigitValue(Digit(n)) == n && '0' <= Digit(n) <= '9'
  {
    assert "0123456789"[n] == ('0' as int + n) as char;
  }

  /** The decimal rendering of a number is its number again, in digits only. */
  lemma {:induction false} DecimalReads(n: nat)
    ensures Value(Decimal(n)) == n && Decimal(n) != "" && forall k :: 0 <= k < |Decimal(n)| ==> '0' <= Decimal(n)[k] <= '9'
  {
    var s := Decimal(n);
    if n < 10 {
      DigitIs(n);
      assert s[..0] == "";
    } else {
      DecimalReads(n / 10);
      DigitIs(n % 10);
      assert s[..|s| - 1] == Decimal(n / 10);
    }
  }

  /** Different blocks have different marks, so each can be put back in its place. */
  lemma MarksDiffer(a: nat, b: nat)
    ensures Mark(a) == Mark(b) <==> a == b
  {
    DecimalReads(a);
    DecimalReads(b);
    hide Decimal;
    var x, y := Decimal(a), Decimal(b);
    assert Mark(a)[3..|x| + 3] == x && Mark(b)[3..|y| + 3] == y;
  }
}
