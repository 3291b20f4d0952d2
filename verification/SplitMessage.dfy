/** Cutting a long message into chunks of bounded length, src/format.ts. */
module SplitMessage {
  import opened Text

  /** A break found by search is too early when it lies before 0.3 * limit. */
  predicate TooEarly(at: int, limit: nat) {
    at == -1 || 10 * at < 3 * limit
  }

  /** Where the next chunk ends: at the last newline, else at the last space, else at the limit. */
  function SplitPoint(r: string, limit: nat): (p: nat)
    requires |r| > limit
    ensures p <= limit && 10 * p >= 3 * limit
    ensures p < limit ==> r[p] == '\n' || r[p] == ' '
    ensures forall k :: p < k <= limit && r[k] == '\n' ==> TooEarly(k, limit)
    ensures p < limit && r[p] == ' ' ==> forall k :: 0 <= k <= limit && r[k] == '\n' ==> TooEarly(k, limit)
    ensures forall k :: p < k <= limit && r[k] == ' ' && r[p] != '\n' ==> TooEarly(k, limit)
  {
    var newline := LastIndexOf(r, '\n', limit);
    if !TooEarly(newline, limit) then newline
    else
      var space := LastIndexOf(r, ' ', limit);
      if !TooEarly(space, limit) then space else limit
  }

  /** What is left after one chunk. */
  function Next(r: string, limit: nat): string
    requires |r| > limit
  {
    TrimStart(r[SplitPoint(r, limit)..])
  }

  /** One round shortens the rest exactly when the limit is positive or the rest starts with white space. */
  lemma Progress(r: string, limit: nat)
    requires |r| > limit
    ensures |Next(r, limit)| < |r| <==> limit >= 1 || IsSpace(r[0])
  {
    var p := SplitPoint(r, limit);
    if limit == 0 {
      assert r[p..] == r;
    }
  }

  /** What is left after `n` rounds; the loop ends when that fits the limit. */
  function After(r: string, limit: nat, n: nat): string {
    if n == 0 || |r| <= limit then r else After(Next(r, limit), limit, n - 1)
  }

  /** At limit 0 a round drops the leading white space and nothing else, so the second round changes nothing. */
  lemma ZeroLimit(r: string)
    requires r != ""
    ensures Next(r, 0) == "" <==> AllSpace(r)
    ensures !AllSpace(r) ==> Next(Next(r, 0), 0) == Next(r, 0)
  {
    hide IsSpace;
    assert r[SplitPoint(r, 0)..] == r;
    var t := TrimStart(r);
    if t != "" { assert t[SplitPoint(t, 0)..] == t; }
  }

  lemma {:induction false} ZeroStays(r: string, n: nat)
    requires r != "" && Next(r, 0) == r
    ensures After(r, 0, n) == r
  {
    hide Next;
    if n > 0 { ZeroStays(r, n - 1); }
  }

  lemma {:induction false} EndsWithin(r: string, limit: nat, n: nat)
    requires limit >= 1 && |r| <= n
    ensures |After(r, limit, n)| <= limit
    decreases n
  {
    hide Next, IsSpace;
    if |r| > limit {
      Progress(r, limit);
      EndsWithin(Next(r, limit), limit, n - 1);
    }
  }

  /** The loop ends exactly when the limit is positive or the text is nothing but white space. */
  lemma LoopEndsIff(text: string, limit: nat)
    ensures (exists n :: |After(text, limit, n)| <= limit) <==> limit >= 1 || AllSpace(text)
  {
    hide Next, AllSpace;
    if limit >= 1 {
      EndsWithin(text, limit, |text|);
    } else if text == "" {
      assert AllSpace("") by { NoSpace(); }
      assert |After(text, 0, 0)| == 0;
    } else {
      ZeroLimit(text);
      if AllSpace(text) {
        assert |After(text, 0, 1)| == 0;
      } else {
        forall n: nat ensures |After(text, 0, n)| > 0 {
          if n > 0 { ZeroStays(Next(text, 0), n - 1); }
        }
      }
    }
  }

  /** The chunks of the remaining text. */
  function Chunks(r: string, limit: nat): seq<string>
    requires limit >= 1
    decreases |r|
  {
    if r == "" then []
    else if |r| <= limit then [r]
    else
      Progress(r, limit);
      [r[..SplitPoint(r, limit)]] + Chunks(Next(r, limit), limit)
  }

  function SplitText(text: string, limit: nat): seq<string>
    requires limit >= 1
  {
    if |text| <= limit then [text] else Chunks(text, limit)
  }

  /** The white space dropped after each chunk. */
  function Gaps(r: string, limit: nat): seq<string>
    requires limit >= 1
    decreases |r|
  {
    if r == "" then []
    else if |r| <= limit then [""]
    else
      Progress(r, limit);
      var rest := r[SplitPoint(r, limit)..];
      [rest[..LeadRun(rest, IsSpace)]] + Gaps(Next(r, limit), limit)
  }

  function Interleave(chunks: seq<string>, gaps: seq<string>): string
    requires |chunks| == |gaps|
  {
    if chunks == [] then "" else chunks[0] + gaps[0] + Interleave(chunks[1..], gaps[1..])
  }

  /** The text is the chunks in order with white space, and nothing else, dropped after each of them. */
  ghost predicate LosesOnlySpace(text: string, chunks: seq<string>) {
    exists gaps: seq<string> ::
      && |gaps| == |chunks|
      && (forall k :: 0 <= k < |gaps| ==> AllSpace(gaps[k]))
      && text == Interleave(chunks, gaps)
  }

  /** One round of the loop. */
  lemma OneChunk(r: string, limit: nat)
    requires |r| > limit >= 1
    ensures var p := SplitPoint(r, limit);
            && 1 <= p <= limit && 10 * p >= 3 * limit
            && |Next(r, limit)| <= |r| - p
            && (Next(r, limit) != "" ==> !IsSpace(Next(r, limit)[0]))
            && Chunks(r, limit) == [r[..p]] + Chunks(Next(r, limit), limit)
  {
    Progress(r, limit);
    hide IsSpace;
  }

  lemma OneGap(r: string, limit: nat)
    requires |r| > limit >= 1
    ensures var p := SplitPoint(r, limit);
            exists gap: string ::
              && AllSpace(gap) && r == r[..p] + gap + Next(r, limit)
              && Gaps(r, limit) == [gap] + Gaps(Next(r, limit), limit)
  {
    Progress(r, limit);
    hide SplitPoint;
    hide IsSpace;
    var p := SplitPoint(r, limit);
    var n := LeadRun(r[p..], IsSpace);
    var gap := r[p..][..n];
    Cut(r, p, n);
    assert Gaps(r, limit) == [gap] + Gaps(Next(r, limit), limit);
  }

  lemma Cut(r: string, p: nat, n: nat)
    requires p <= |r| && n <= |r| - p
    ensures r == r[..p] + r[p..][..n] + r[p..][n..]
  {
  }

  lemma LastChunk(r: string, limit: nat)
    requires limit >= 1 && |r| <= limit
    ensures Chunks(r, limit) == if r == "" then [] else [r]
    ensures Gaps(r, limit) == if r == "" then [] else [""]
  {
  }

  lemma InterleaveStep(c: string, g: string, chunks: seq<string>, gaps: seq<string>)
    requires |chunks| == |gaps|
    ensures Interleave([], []) == ""
    ensures Interleave([c] + chunks, [g] + gaps) == c + g + Interleave(chunks, gaps)
  {
    assert ([c] + chunks)[1..] == chunks && ([g] + gaps)[1..] == gaps;
  }

  lemma {:induction false} Reassemble(r: string, limit: nat)
    requires limit >= 1
    ensures |Gaps(r, limit)| == |Chunks(r, limit)|
    ensures forall k :: 0 <= k < |Gaps(r, limit)| ==> AllSpace(Gaps(r, limit)[k])
    ensures Interleave(Chunks(r, limit), Gaps(r, limit)) == r
    decreases |r|
  {
    hide *;
    if |r| > limit {
      OneChunk(r, limit);
      OneGap(r, limit);
      var next := Next(r, limit);
      Reassemble(next, limit);
      var gap: string :| AllSpace(gap) && r == r[..SplitPoint(r, limit)] + gap + next && Gaps(r, limit) == [gap] + Gaps(next, limit);
      InterleaveStep(r[..SplitPoint(r, limit)], gap, Chunks(next, limit), Gaps(next, limit));
    } else {
      LastChunk(r, limit);
      NoSpace();
      InterleaveStep(r, "", [], []);
      assert [r] + [] == [r] && [""] + [] == [""];
    }
  }

  lemma NoSpace()
    ensures AllSpace("")
  {
  }

  /** Nothing but white space is lost, for any text and any positive limit. */
  lemma SplitLosesOnlySpace(text: string, limit: nat)
    requires limit >= 1
    ensures LosesOnlySpace(text, SplitText(text, limit))
  {
    if |text| <= limit {
      assert Interleave([], []) == "";
      assert Interleave([text], [""]) == text;
    } else {
      Reassemble(text, limit);
    }
  }

  /** Every chunk fits and, except for the last, is not too short. */
  ghost predicate Fits(c: seq<string>, limit: nat) {
    && (forall k :: 0 <= k < |c| ==> 1 <= |c[k]| <= limit)
    && (forall k :: 0 <= k < |c| - 1 ==> 10 * |c[k]| >= 3 * limit)
  }

  /** No chunk starts with white space. */
  ghost predicate StartsPrinting(c: seq<string>) {
    forall k :: 0 <= k < |c| ==> c[k] != "" && !IsSpace(c[k][0])
  }

  lemma {:induction false} ChunksFit(r: string, limit: nat)
    requires limit >= 1
    ensures Fits(Chunks(r, limit), limit)
    decreases |r|
  {
    hide Chunks;
    hide SplitPoint;
    hide Next;
    if |r| > limit {
      OneChunk(r, limit);
      ChunksFit(Next(r, limit), limit);
    } else {
      LastChunk(r, limit);
    }
  }

  lemma {:induction false} ChunksStart(r: string, limit: nat)
    requires limit >= 1 && (r != "" ==> !IsSpace(r[0]))
    ensures StartsPrinting(Chunks(r, limit))
    decreases |r|
  {
    hide Chunks;
    hide SplitPoint;
    hide Next;
    hide IsSpace;
    if |r| > limit {
      OneChunk(r, limit);
      ChunksStart(Next(r, limit), limit);
    } else {
      LastChunk(r, limit);
    }
  }

  lemma {:induction false} ChunkCount(r: string, limit: nat)
    requires limit >= 1
    ensures 3 * limit * (|Chunks(r, limit)| - 1) <= 10 * |r|
    decreases |r|
  {
    hide Chunks;
    hide SplitPoint;
    hide Next;
    if |r| > limit {
      OneChunk(r, limit);
      ChunkCount(Next(r, limit), limit);
      CountStep(limit, |Chunks(Next(r, limit), limit)|, SplitPoint(r, limit), |Next(r, limit)|, |r|);
    } else {
      LastChunk(r, limit);
    }
  }

  lemma CountStep(limit: nat, n: nat, p: nat, rest: nat, all: nat)
    requires 3 * limit * (n - 1) <= 10 * rest && 10 * p >= 3 * limit && rest + p <= all
    ensures 3 * limit * n <= 10 * all
  {
    assert 3 * limit * n == 3 * limit * (n - 1) + 3 * limit;
  }

  /** Every chunk fits; for a text over the limit every chunk but the last is at least 0.3 * limit long, every chunk
      after the first starts with a printing character, and the number of chunks is bounded accordingly. */
  lemma SplitSizes(text: string, limit: nat)
    requires limit >= 1
    ensures var c := SplitText(text, limit);
            && |c| >= 1
            && (forall k :: 0 <= k < |c| ==> |c[k]| <= limit)
            && (|text| > limit ==> forall k :: 0 <= k < |c| - 1 ==> 10 * |c[k]| >= 3 * limit)
            && StartsPrinting(c[1..])
            && 3 * limit * (|c| - 1) <= 10 * |text|
  {
    hide Chunks;
    hide SplitPoint;
    hide Next;
    if |text| > limit {
      ChunksFit(text, limit);
      ChunkCount(text, limit);
      OneChunk(text, limit);
      ChunksStart(Next(text, limit), limit);
      assert SplitText(text, limit)[1..] == Chunks(Next(text, limit), limit);
    } else {
      assert SplitText(text, limit)[1..] == [];
    }
  }

  /** A chunk ends at the last newline in reach, at the last space only when no newline is in reach, and inside a word
      only when neither is. */
  lemma BreaksWell(r: string, limit: nat)
    requires |r| > limit >= 1
    ensures var p := SplitPoint(r, limit);
            && Chunks(r, limit)[0] == r[..p]
            && (forall k :: 0 <= k <= limit && r[k] == '\n' && !TooEarly(k, limit) ==> r[p] == '\n' && k <= p)
            && (r[p] != '\n' ==> forall k :: 0 <= k <= limit && r[k] == ' ' && !TooEarly(k, limit) ==> r[p] == ' ' && k <= p)
            && (r[p] != '\n' && r[p] != ' ' ==> p == limit)
  {
    OneChunk(r, limit);
  }

  /** The two searches of the loop, in order. */
  lemma SplitPointSearch(r: string, limit: nat)
    requires |r| > limit
    ensures var newline, space := LastIndexOf(r, '\n', limit), LastIndexOf(r, ' ', limit);
            SplitPoint(r, limit) ==
            if !(newline == -1 || 10 * newline < 3 * limit) then newline
            else if !(space == -1 || 10 * space < 3 * limit) then space else limit
    ensures Next(r, limit) == TrimStart(r[SplitPoint(r, limit)..])
  {
  }

  lemma ShortText(text: string, limit: nat)
    requires limit >= 1
    ensures SplitText(text, limit) == if |text| <= limit then [text] else Chunks(text, limit)
  {
  }

  method Split(text: string, limit: nat) returns (chunks: seq<string>)
    requires limit >= 1
    ensures chunks == SplitText(text, limit)
  {
    hide *;
    ShortText(text, limit);
    if |text| <= limit {
      return [text];
    }
    chunks := [];
    var remaining := text;
    NothingAdded(Chunks(text, limit));
    while |remaining| > 0
      invariant chunks + Chunks(remaining, limit) == Chunks(text, limit)
      decreases |remaining|
    {
      if |remaining| <= limit {
        LastChunk(remaining, limit);
        chunks := chunks + [remaining];
        return;
      }
      SplitPointSearch(remaining, limit);
      OneChunk(remaining, limit);
      var splitAt := LastIndexOf(remaining, '\n', limit);
      if splitAt == -1 || 10 * splitAt < 3 * limit {
        splitAt := LastIndexOf(remaining, ' ', limit);
      }
      if splitAt == -1 || 10 * splitAt < 3 * limit {
        splitAt := limit;
      }
      Regroup(chunks, [remaining[..splitAt]], Chunks(Next(remaining, limit), limit));
      chunks := chunks + [remaining[..splitAt]];
      remaining := TrimStart(remaining[splitAt..]);
    }
    LastChunk(remaining, limit);
    NothingAdded(chunks);
  }
}
