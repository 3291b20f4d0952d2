/** Markdown as it is written: what becomes of a link and of a fenced block at their place in a message. */
module Written {
  import opened Text
  import opened Regex
  import opened Linkify
  import CodeBlocks

  /** `p` does not begin inside `s` when it stands right behind it. */
  ghost predicate Free(s: string, p: string) {
    forall k :: 0 <= k < |s| ==> !OccursAt(s + p, p, k)
  }

  /** So a search from the start of `s` ends right behind it. */
  lemma FoundAfter(w: string, u: string, s: string, p: string, v: string)
    requires Free(s, p) && w == u + s + p + v
    ensures IndexOf(w, p, |u|) == |u| + |s| && OccursAt(w, p, |u| + |s|)
  {
    forall k | |u| <= k < |u| + |s| ensures !OccursAt(w, p, k) {
      assert w[k..k + |p|] == (s + p)[k - |u|..k - |u| + |p|];
      assert !OccursAt(s + p, p, k - |u|);
    }
    assert w[|u| + |s|..|u| + |s| + |p|] == p;
    assert OccursAt(w, p, |u| + |s|);
  }

  lemma Middle(w: string, u: string, s: string, v: string)
    requires w == u + s + v
    ensures |w| == |u| + |s| + |v| && w[|u|..|u| + |s|] == s
  {
  }

  // ---- links -------------------------------------------------------------

  function Link(text: string, url: string): string {
    "[" + text + "](" + url + ")"
  }

  /** Neither is empty, and past its first character each goes up to what ends it. */
  ghost predicate Writable(text: string, url: string) {
    && text != "" && OneLine(text) && Free(text[1..], "](")
    && url != "" && OneLine(url) && Free(url[1..], ")")
  }

  lemma OneLineConcat(a: string, b: string)
    ensures OneLine(a + b) <==> OneLine(a) && OneLine(b)
  {
    assert forall k :: 0 <= k < |a| ==> (a + b)[k] == a[k];
    assert forall k :: 0 <= k < |b| ==> (a + b)[|a| + k] == b[k];
  }

  lemma LinkOneLine(text: string, url: string)
    requires Writable(text, url)
    ensures OneLine(Link(text, url))
  {
    OneLineConcat("[" + text + "](" + url, ")");
    OneLineConcat("[" + text + "](", url);
    OneLineConcat("[" + text, "](");
    OneLineConcat("[", text);
  }

  /** Where the searches of the pattern stop in a written link, and what lies between. */
  lemma Searched(s: string, text: string, url: string, post: string)
    requires Writable(text, url) && s == Link(text, url) + post
    ensures |s| > |text| + 3 + |url| && s[0] == '['
    ensures IndexOf(s, "](", 2) == |text| + 1 && IndexOf(s, ")", |text| + 4) == |text| + 3 + |url|
    ensures s[1..|text| + 1] == text && s[|text| + 3..|text| + 3 + |url|] == url
  {
    Ends(text, url);
    hide *;
    var u, v := "[" + text + "](", url + ")" + post;
    Spelling(text, url, post);
    TextFound(s, text, v);
    UrlFound(s, u, url, post);
  }

  lemma Ends(text: string, url: string)
    requires Writable(text, url)
    ensures text != "" && Free(text[1..], "](") && url != "" && Free(url[1..], ")")
  {
  }

  lemma Spelling(text: string, url: string, post: string)
    ensures Link(text, url) + post == "[" + text + "](" + (url + ")" + post)
    ensures Link(text, url) + post == ("[" + text + "](") + url + ")" + post
    ensures |"[" + text + "]("| == |text| + 3
  {
  }

  lemma TextFound(s: string, text: string, v: string)
    requires text != "" && Free(text[1..], "](") && s == "[" + text + "](" + v
    ensures s[0] == '[' && IndexOf(s, "](", 2) == |text| + 1 && s[1..|text| + 1] == text
  {
    var u := "[" + text[..1];
    assert s == u + text[1..] + "](" + v;
    FoundAfter(s, u, text[1..], "](", v);
  }

  lemma UrlFound(s: string, u: string, url: string, v: string)
    requires url != "" && Free(url[1..], ")") && s == u + url + ")" + v
    ensures |s| > |u| + |url| && IndexOf(s, ")", |u| + 1) == |u| + |url| && s[|u|..|u| + |url|] == url
  {
    hide *;
    FirstApart(u, url);
    FoundAfter(s, u + url[..1], url[1..], ")", v);
    Regroup(u + url, ")", v);
    Middle(s, u, url, ")" + v);
  }

  lemma FirstApart(u: string, url: string)
    requires url != ""
    ensures (u + url[..1]) + url[1..] == u + url && |u + url[..1]| == |u| + 1 && |url[1..]| == |url| - 1
  {
  }

  lemma FirstLink(s: string, text: string, url: string, p: nat, q: nat)
    requires OneLine(s) && s != "" && s[0] == '[' && p == IndexOf(s, "](", 2) && q == IndexOf(s, ")", p + 3)
    requires 1 <= p <= |s| && p + 2 <= q <= |s| && s[1..p] == text && s[p + 2..q] == url
    ensures q < |s| && LinkReplace(s) == AnchorOf(url, text) + Rest(s, q + 1, q + 1, 1)
  {
    hide *;
    RestIsWhole(s);
    OneLink(s, 0, 0, 0, p, q);
    Unpadded(s, AnchorOf(url, text));
  }

  lemma LinkAtStart(text: string, url: string, post: string)
    requires Writable(text, url) && OneLine(post)
    ensures LinkReplace(Link(text, url) + post) == AnchorOf(url, text) + LinkReplace(post)
  {
    hide *;
    var u := Link(text, url);
    var s := u + post;
    Searched(s, text, url, post);
    LinkOneLine(text, url);
    OneLineConcat(u, post);
    FirstLink(s, text, url, |text| + 1, |text| + 3 + |url|);
    LinkLength(text, url);
    LinksAfter(u, post);
  }

  lemma LinksAfter(u: string, post: string)
    ensures Rest(u + post, |u|, |u|, 1) == LinkReplace(post)
  {
    hide *;
    RestIsWhole(post);
    RestShift(u, post, 0, 0, 1, 0);
  }

  lemma Unpadded(s: string, t: string)
    ensures s[0..0] + t == t
  {
  }

  lemma LinkLength(text: string, url: string)
    ensures |Link(text, url)| == |text| + |url| + 4
  {
  }

  lemma NoLinks(s: string)
    requires OneLine(s) && Lacks(s, '[')
    ensures LinkReplace(s) == s
  {
    ToBracket(s, 0, 0);
    OneChar(s, '[');
    RestIsWhole(s);
    assert s[0..] == s;
  }

  lemma LinkOnLine(pre: string, text: string, url: string, post: string)
    requires Writable(text, url) && OneLine(pre) && Lacks(pre, '[') && OneLine(post)
    ensures LinkReplace(pre + Link(text, url) + post) ==
            pre + AnchorOf(url, text) + LinkReplace(post)
  {
    var b := Link(text, url) + post;
    LinkAtStart(text, url, post);
    LinkOneLine(text, url);
    OneLineConcat(Link(text, url), post);
    OneLineConcat(pre, b);
    hide LinkReplace, Writable;
    var s := pre + b;
    forall k | 0 <= k < |pre| && k < |s| ensures s[k] != '[' { assert s[k] == pre[k]; }
    NoBracket(s, 0, |pre|);
    SkipMisses(LINK, s, 0, 0, |pre|, 0, Anchor);
    RestIsWhole(s);
    RestIsWhole(b);
    RestFromStart(pre, b, 0, 0, 0);
    assert pre[0..] == pre && pre + Link(text, url) + post == s;
  }

  lemma LinkBefore(pre: string, text: string, url: string, post: string)
    requires Writable(text, url) && OneLine(pre) && Lacks(pre, '[')
    ensures LinkReplace(pre + Link(text, url) + post) ==
            pre + AnchorOf(url, text) + LinkReplace(post)
  {
    var k := LeadRun(post, NotTerminator);
    if k < |post| {
      var a, t, b := post[..k], post[k], post[k + 1..];
      assert OneLine(a) && IsTerminator(t);
      hide *;
      LinkOnLine(pre, text, url, a);
      var u := pre + Link(text, url);
      var v := pre + AnchorOf(url, text);
      LinkReplaceLine(u + a, t, b);
      LinkReplaceLine(a, t, b);
      assert post == a + [t] + b;
      RegroupFour(u, a, [t], b);
      RegroupFour(v, LinkReplace(a), [t], LinkReplace(b));
    } else {
      assert OneLine(post);
      LinkOnLine(pre, text, url, post);
    }
  }

  lemma {:induction false} LinkInText(pre: string, text: string, url: string, post: string)
    requires Writable(text, url) && Lacks(pre, '[')
    ensures LinkReplace(pre + Link(text, url) + post) == pre + AnchorOf(url, text) + LinkReplace(post)
    decreases |pre|
  {
    var k := LeadRun(pre, NotTerminator);
    if k < |pre| {
      var a, t, b := pre[..k], pre[k], pre[k + 1..];
      assert Lacks(b, '[') by { assert forall j :: 0 <= j < |b| ==> b[j] == pre[k + 1 + j]; }
      assert OneLine(a) && IsTerminator(t) && Lacks(a, '[');
      hide *;
      LinkInText(b, text, url, post);
      NoLinks(a);
      LinkReplaceLine(a, t, b + Link(text, url) + post);
      assert pre == a + [t] + b;
      RegroupFour(a + [t], b, Link(text, url), post);
      RegroupFour(a + [t], b, AnchorOf(url, text), LinkReplace(post));
    } else {
      LinkBefore(pre, text, url, post);
    }
  }

  /** A written link becomes an anchor that points at its url and shows its text; what follows is replaced on its own. Text
      before it is kept when no earlier '[' could have begun a link. */
  lemma LinkIsReplaced(pre: string, text: string, url: string, post: string)
    requires Writable(text, url) && Lacks(pre, '[')
    ensures LinkReplace(pre + Link(text, url) + post) ==
            pre + "<a href=\"" + url + "\">" + text + "</a>" + LinkReplace(post)
  {
    LinkInText(pre, text, url, post);
    AnchorIs(pre, url, text);
  }

  lemma AnchorIs(pre: string, url: string, text: string)
    ensures pre + AnchorOf(url, text) == pre + "<a href=\"" + url + "\">" + text + "</a>"
  {
  }

  // ---- fenced blocks -----------------------------------------------------

  /** A fenced block: `gap` is the newline after the language, which may be missing where the body shows its own start. */
  function Fenced(lang: string, gap: string, body: string): string {
    CodeBlocks.FENCE + lang + gap + body + CodeBlocks.FENCE
  }

  ghost predicate Fits(lang: string, gap: string, body: string) {
    && (forall k :: 0 <= k < |lang| ==> IsWord(lang[k]))
    && (gap == "\n" || (gap == "" && (body == "" || (!IsWord(body[0]) && body[0] != '\n'))))
    && Free(body, CodeBlocks.FENCE)
  }

  lemma WordsUpTo(u: string, lang: string, v: string)
    requires forall k :: 0 <= k < |lang| ==> IsWord(lang[k])
    requires v != "" && !IsWord(v[0])
    ensures CodeBlocks.WordEnd(u + lang + v, |u|) == |u| + |lang|
  {
    hide IsWord;
    var s := u + lang + v;
    var l := |u| + |lang|;
    forall k | |u| <= k < l ensures IsWord(s[k]) { assert s[k] == lang[k - |u|]; }
    assert s[l] == v[0];
  }

  /** Where the language of a written block ends, and where its body begins. */
  lemma LangEnds(s: string, u: string, lang: string, gap: string, body: string, v: string)
    requires Fits(lang, gap, body) && s == u + lang + (gap + body + CodeBlocks.FENCE + v)
    ensures CodeBlocks.WordEnd(s, |u|) == |u| + |lang|
    ensures CodeBlocks.BodyStart(s, |u| + |lang|) == |u| + |lang| + |gap|
  {
    var rest := gap + body + CodeBlocks.FENCE + v;
    assert rest[0] == if gap == "\n" then '\n' else if body != "" then body[0] else '`';
    WordsUpTo(u, lang, rest);
    assert (u + lang + rest)[|u| + |lang|] == rest[0];
  }

  lemma {:induction false} TextShift(u: string, b: string, l: nat, j: nat, n: nat)
    requires l <= j && l <= |b|
    ensures CodeBlocks.Rest(u + b, |u| + l, |u| + j, n) == CodeBlocks.Rest(b, l, j, n)
    decreases |b| + 1 - j
  {
    var s := u + b;
    hide MatchHere;
    if j > |b| {
      assert s[|u| + l..] == b[l..];
    } else {
      MatchShift(CodeBlocks.BLOCK, u, b, j);
      match MatchHere(CodeBlocks.BLOCK, b, j)
      case NoMatch => TextShift(u, b, l, j + 1, n);
      case Match(end, caps) =>
        TextShift(u, b, end, if end > j then end else j + 1, n + 1);
        assert s[|u| + l..|u| + j] == b[l..j];
    }
  }

  lemma BlockShift(u: string, b: string, hit: Hit)
    ensures CodeBlocks.BlockOf(u + b, Hit(hit.start + |u|, hit.end + |u|, ShiftCaps(hit.caps, |u|))) == CodeBlocks.BlockOf(b, hit)
  {
    hide CodeBlocks.Rendered;
    if |hit.caps| == 2 {
      var t, w := hit.caps[0], hit.caps[1];
      if t.lo <= t.hi <= |b| { Within(u, b, t.lo, t.hi); }
      if w.lo <= w.hi <= |b| { Within(u, b, w.lo, w.hi); }
    }
  }

  lemma Within(u: string, b: string, lo: nat, hi: nat)
    requires lo <= hi <= |b|
    ensures (u + b)[|u| + lo..|u| + hi] == b[lo..hi]
  {
  }

  lemma BlocksStep(s: string, i: nat)
    ensures i > |s| ==> CodeBlocks.RestBlocks(s, i) == []
    ensures i <= |s| ==>
      match MatchHere(CodeBlocks.BLOCK, s, i)
      case NoMatch => CodeBlocks.RestBlocks(s, i) == CodeBlocks.RestBlocks(s, i + 1)
      case Match(end, caps) =>
        CodeBlocks.RestBlocks(s, i) == [CodeBlocks.BlockOf(s, Hit(i, end, caps))] + CodeBlocks.RestBlocks(s, GoesOn(i, end))
  {
    hide MatchHere, CodeBlocks.BlockOf;
    var hits := Hits(CodeBlocks.BLOCK, s, i);
    if i <= |s| && MatchHere(CodeBlocks.BLOCK, s, i).Match? {
      assert hits[1..] == Hits(CodeBlocks.BLOCK, s, GoesOn(i, MatchHere(CodeBlocks.BLOCK, s, i).end));
    }
  }

  lemma {:induction false} BlocksShift(u: string, b: string, j: nat)
    ensures CodeBlocks.RestBlocks(u + b, |u| + j) == CodeBlocks.RestBlocks(b, j)
    decreases |b| + 1 - j
  {
    hide *;
    BlocksStep(u + b, |u| + j);
    BlocksStep(b, j);
    if j <= |b| {
      MatchShift(CodeBlocks.BLOCK, u, b, j);
      ShiftIs(MatchHere(CodeBlocks.BLOCK, b, j), |u|);
      match MatchHere(CodeBlocks.BLOCK, b, j)
      case NoMatch => BlocksShift(u, b, j + 1);
      case Match(end, caps) =>
        BlockShift(u, b, Hit(j, end, caps));
        GoesOnShifted(j, end, |u|);
        BlocksShift(u, b, GoesOn(j, end));
    }
  }

  lemma BlocksAfter(u: string, post: string, n: nat)
    ensures CodeBlocks.Rest(u + post, |u|, |u|, n) == CodeBlocks.Rest(post, 0, 0, n)
    ensures CodeBlocks.RestBlocks(u + post, |u|) == CodeBlocks.RestBlocks(post, 0)
  {
    hide *;
    TextShift(u, post, 0, 0, n);
    BlocksShift(u, post, 0);
  }

  lemma FirstBlock(s: string, pre: string, lang: string, body: string, l: nat, start: nat, close: nat, n: nat)
    requires IndexOf(s, CodeBlocks.FENCE, 0) == |pre| && OccursAt(s, CodeBlocks.FENCE, |pre|)
    requires CodeBlocks.WordEnd(s, |pre| + 3) == l && CodeBlocks.BodyStart(s, l) == start
    requires close == IndexOf(s, CodeBlocks.FENCE, start)
    requires |pre| + 3 <= l <= start <= close <= |s|
    requires s[0..|pre|] == pre && s[|pre| + 3..l] == lang && s[start..close] == body
    ensures close + 3 <= |s|
    ensures Replaced(CodeBlocks.BLOCK, s, 0, 0, n, CodeBlocks.Placeholder) ==
            pre + CodeBlocks.Mark(n) + CodeBlocks.Rest(s, close + 3, close + 3, n + 1)
    ensures CodeBlocks.Blocks(s, Hits(CodeBlocks.BLOCK, s, 0)) ==
            [CodeBlocks.Rendered(lang, body)] + CodeBlocks.RestBlocks(s, close + 3)
  {
    hide *;
    CodeBlocks.Whole(s, n);
    CodeBlocks.ToFence(s, 0, n);
    CodeBlocks.OneBlock(s, 0, |pre|, n, close);
  }

  /** A written block leaves its mark in its place and puts its language and body into the list; what follows is taken on
      its own. */
  lemma BlockIsTaken(pre: string, lang: string, gap: string, body: string, post: string, n: nat)
    requires Free(pre, CodeBlocks.FENCE) && Fits(lang, gap, body)
    ensures var s := pre + Fenced(lang, gap, body) + post;
            && Replaced(CodeBlocks.BLOCK, s, 0, 0, n, CodeBlocks.Placeholder) ==
               pre + CodeBlocks.Mark(n) + Replaced(CodeBlocks.BLOCK, post, 0, 0, n + 1, CodeBlocks.Placeholder)
            && CodeBlocks.Blocks(s, Hits(CodeBlocks.BLOCK, s, 0)) ==
               [CodeBlocks.Rendered(lang, body)] + CodeBlocks.Blocks(post, Hits(CodeBlocks.BLOCK, post, 0))
  {
    hide *;
    var u := pre + Fenced(lang, gap, body);
    var l := |pre| + 3 + |lang|;
    Opened(pre, lang, gap, body, post);
    BodyFound(pre, lang, gap, body, post);
    FirstBlock(u + post, pre, lang, body, l, l + |gap|, l + |gap| + |body|, n);
    BlocksAfter(u, post, n + 1);
    CodeBlocks.Whole(post, n + 1);
  }

  /** The opening fence and the language of the first block of a message. */
  lemma Opened(pre: string, lang: string, gap: string, body: string, post: string)
    requires Free(pre, CodeBlocks.FENCE) && Fits(lang, gap, body)
    ensures var s := pre + Fenced(lang, gap, body) + post;
            var l := |pre| + 3 + |lang|;
            && |s| >= l && IndexOf(s, CodeBlocks.FENCE, 0) == |pre| && OccursAt(s, CodeBlocks.FENCE, |pre|)
            && CodeBlocks.WordEnd(s, |pre| + 3) == l && CodeBlocks.BodyStart(s, l) == l + |gap|
            && s[0..|pre|] == pre && s[|pre| + 3..l] == lang
  {
    hide *;
    var f := CodeBlocks.FENCE;
    var s, rest := pre + Fenced(lang, gap, body) + post, gap + body + f + post;
    Spelled(pre, lang, gap, body, post);
    FenceLength(pre);
    FoundAfter(s, "", pre, f, lang + rest);
    LangEnds(s, pre + f, lang, gap, body, post);
    Middle(s, pre + f, lang, rest);
    Regroup("" + pre, f, lang + rest);
    Middle(s, "", pre, f + (lang + rest));
  }

  lemma FenceLength(pre: string)
    ensures |CodeBlocks.FENCE| == 3 && |pre + CodeBlocks.FENCE| == |pre| + 3
  {
  }

  /** Its body and closing fence. */
  lemma BodyFound(pre: string, lang: string, gap: string, body: string, post: string)
    requires Fits(lang, gap, body)
    ensures var s := pre + Fenced(lang, gap, body) + post;
            var start := |pre| + 3 + |lang| + |gap|;
            && |pre + Fenced(lang, gap, body)| == start + |body| + 3
            && IndexOf(s, CodeBlocks.FENCE, start) == start + |body| && s[start..start + |body|] == body
  {
    var f := CodeBlocks.FENCE;
    var s, u := pre + Fenced(lang, gap, body) + post, pre + f + lang + gap;
    Spelled(pre, lang, gap, body, post);
    FoundAfter(s, u, body, f, post);
    Regroup(u + body, f, post);
    Middle(s, u, body, f + post);
  }

  lemma Spelled(pre: string, lang: string, gap: string, body: string, post: string)
    ensures var f := CodeBlocks.FENCE;
            var s := pre + Fenced(lang, gap, body) + post;
            && s == "" + pre + f + (lang + (gap + body + f + post))
            && s == (pre + f) + lang + (gap + body + f + post)
            && s == (pre + f + lang + gap) + body + f + post
  {
  }
}
