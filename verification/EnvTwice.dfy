/** What a second update of the .env file does to the first. */
module EnvTwice {
  import opened Options
  import opened Text
  import opened EnvFile
  import opened EnvLens

  ghost predicate SameKeys(a: Entries, b: Entries) {
    |a| == |b| && forall i :: 0 <= i < |a| ==> a[i].0 == b[i].0
  }

  lemma {:induction false} FreshAlike(lines: seq<string>, a: Entries, b: Entries)
    requires SameKeys(a, b)
    ensures SameKeys(Fresh(lines, a), Fresh(lines, b))
  {
    hide NamedIn;
    if a != [] { FreshAlike(lines, a[..|a| - 1], b[..|b| - 1]); }
  }

  /** Both update the same keys, in whatever order. */
  ghost predicate SameDomain(a: Entries, b: Entries) {
    forall k :: k in AsMap(a) <==> k in AsMap(b)
  }

  /** Line `i` of the once updated lines, updated again, is line `i` updated by the second alone. */
  lemma TwiceOldLine(lines: seq<string>, a: Entries, b: Entries, i: nat)
    requires AllUsable(a) && AllUsable(b) && SameDomain(a, b) && i < |lines|
    ensures NewLine(UpdatedLines(lines, a), AsMap(b), i) == NewLine(lines, AsMap(b), i)
  {
    var once, u := UpdatedLines(lines, a), AsMap(b);
    UsableKeys(a);
    hide AsMap, AllUsable, UpdatedLines;
    LineByLine(lines, a, i);
    NewAt(lines, a, i);
    SamePrefix(lines, a, i);
    hide Names, NamedIn, Entry;
    var p, q := Parse(lines[i]), Parse(once[i]);
    assert p.Some? ==> Names(lines[i], p.value.0) by { NamesOwn(lines[i]); }
    assert q.Some? ==> Names(once[i], q.value.0) by { NamesOwn(once[i]); }
    NamesOne(lines[i]);
    NamesOne(once[i]);
    hide Parse;
  }

  lemma NamesOwn(l: string)
    ensures Parse(l).Some? ==> Names(l, Parse(l).value.0)
  {
    hide Parse;
  }

  lemma NamesOne(l: string)
    ensures forall k :: Names(l, k) <==> Parse(l).Some? && Parse(l).value.0 == k
  {
    hide Parse;
  }

  lemma SameOrderSameDomain(a: Entries, b: Entries)
    requires AllUsable(a) && AllUsable(b) && SameKeys(a, b)
    ensures SameDomain(a, b)
  {
    hide SafeEntry, AsMap;
    AsMapHas(a);
    AsMapHas(b);
    var m, n := AsMap(a), AsMap(b);
    forall k ensures k in m <==> k in n {
      if k in m { var i :| 0 <= i < |a| && a[i] == (k, m[k]); assert b[i].0 in n; }
      if k in n { var i :| 0 <= i < |b| && b[i] == (k, n[k]); assert a[i].0 in m; }
    }
  }

  lemma NamedAlike(a: seq<string>, b: seq<string>)
    requires |a| == |b| && forall j, k :: 0 <= j < |a| ==> (Names(a[j], k) <==> Names(b[j], k))
    ensures forall k :: NamedIn(a, k) <==> NamedIn(b, k)
  {
    hide Names;
    forall k ensures NamedIn(a, k) <==> NamedIn(b, k) {
      if NamedIn(a, k) { var j :| 0 <= j < |a| && Names(a[j], k); assert Names(b[j], k); }
      if NamedIn(b, k) { var j :| 0 <= j < |b| && Names(b[j], k); assert Names(a[j], k); }
    }
  }

  lemma SamePrefix(lines: seq<string>, es: Entries, i: nat)
    requires AllUsable(es) && i <= |lines|
    ensures |UpdatedLines(lines, es)| >= |lines|
    ensures forall k :: NamedIn(UpdatedLines(lines, es)[..i], k) <==> NamedIn(lines[..i], k)
  {
    hide *;
    var out := UpdatedLines(lines, es);
    Longer(lines, es);
    forall j, k | 0 <= j < i ensures Names(out[..i][j], k) <==> Names(lines[..i][j], k) { LineByLine(lines, es, j); }
    NamedAlike(out[..i], lines[..i]);
  }

  /** A line the first update appended is rewritten by the second with the second's value. */
  lemma TwiceNewLine(lines: seq<string>, a: Entries, b: Entries, m: nat)
    requires AllUsable(a) && AllUsable(b) && SameDomain(a, b) && m < |Fresh(lines, a)|
    ensures |UpdatedLines(lines, a)| == |lines| + |Fresh(lines, a)|
    ensures var k := Fresh(lines, a)[m].0;
            && SafeKey(k) && k in AsMap(b)
            && NewLine(UpdatedLines(lines, a), AsMap(b), |lines| + m) == Entry(k, AsMap(b)[k])
  {
    hide *;
    var once, fa := UpdatedLines(lines, a), Fresh(lines, a);
    Longer(lines, a);
    UsableAre(a);
    FreshAre(lines, a);
    assert fa[m] in fa;
    SafeHasKey(fa[m].0, fa[m].1);
    EntryParses(fa[m].0, fa[m].1);
    AsMapAt(a, fa[m]);
    DomainHas(a, b, fa[m].0);
    FreshUnnamed(lines, a, m);
    Rewrites(once, AsMap(b), |lines| + m, fa[m].0);
  }

  lemma DomainHas(a: Entries, b: Entries, k: string)
    requires SameDomain(a, b)
    ensures k in AsMap(a) <==> k in AsMap(b)
  {
    hide AsMap;
  }

  /** A line the second update alone appends. */
  lemma DirectNewLine(lines: seq<string>, b: Entries, m: nat)
    requires AllUsable(b) && m < |Fresh(lines, b)|
    ensures |UpdatedLines(lines, b)| == |lines| + |Fresh(lines, b)|
    ensures var k := Fresh(lines, b)[m].0;
            SafeKey(k) && k in AsMap(b) && UpdatedLines(lines, b)[|lines| + m] == Entry(k, AsMap(b)[k])
  {
    hide *;
    var fb := Fresh(lines, b);
    Longer(lines, b);
    UsableAre(b);
    FreshAre(lines, b);
    assert fb[m] in fb;
    SafeHasKey(fb[m].0, fb[m].1);
    AsMapAt(b, fb[m]);
  }

  /** Written lines of different keys differ. */
  lemma EntryKey(j: string, v: string, k: string, w: string)
    requires SafeKey(j) && SafeKey(k) && Entry(j, v) == Entry(k, w)
    ensures j == k
  {
    hide *;
    EntryParses(j, v);
    EntryParses(k, w);
  }

  lemma SafeHasKey(k: string, v: string)
    requires SafeEntry(k, v)
    ensures SafeKey(k)
  {
  }

  lemma AsMapAt(es: Entries, e: (string, string))
    requires DistinctKeys(es) && e in es
    ensures e.0 in AsMap(es) && AsMap(es)[e.0] == e.1
  {
    hide AsMap;
    AsMapHas(es);
    var j :| 0 <= j < |es| && es[j] == e;
  }

  lemma Rewrites(lines: seq<string>, u: map<string, string>, i: nat, k: string)
    requires i < |lines| && Parse(lines[i]).Some? && Parse(lines[i]).value.0 == k && k in u && !NamedIn(lines[..i], k)
    ensures NewLine(lines, u, i) == Entry(k, u[k])
  {
    hide Parse, NamedIn, Entry;
  }

  lemma {:induction false} FreshUnnamed(lines: seq<string>, es: Entries, m: nat)
    requires AllUsable(es) && m < |Fresh(lines, es)|
    ensures |UpdatedLines(lines, es)| == |lines| + |Fresh(lines, es)|
    ensures !NamedIn(UpdatedLines(lines, es)[..|lines| + m], Fresh(lines, es)[m].0)
  {
    hide *;
    var out, fr := UpdatedLines(lines, es), Fresh(lines, es);
    var n, k := |lines|, fr[m].0;
    Longer(lines, es);
    UsableAre(es);
    FreshAre(lines, es);
    FreshApart(fr, m);
    assert fr[m] in fr;
    SamePrefix(lines, es, n);
    assert lines[..n] == lines;
    forall i | n <= i < n + m ensures !Names(out[i], k) {
      var e := fr[i - n];
      assert e in fr && out[n + (i - n)] == Entry(e.0, e.1);
      SafeHasKey(e.0, e.1);
      EntryParses(e.0, e.1);
      NamesOne(Entry(e.0, e.1));
    }
    NotNamedBeyond(out, n, m, k);
  }

  lemma FreshApart(fr: Entries, m: nat)
    requires DistinctKeys(fr) && m < |fr|
    ensures forall j :: 0 <= j < m ==> fr[j].0 != fr[m].0
  {
  }

  lemma {:induction false} NotNamedBeyond(lines: seq<string>, n: nat, m: nat, k: string)
    requires n + m <= |lines| && !NamedIn(lines[..n], k) && forall i :: n <= i < n + m ==> !Names(lines[i], k)
    ensures !NamedIn(lines[..n + m], k)
  {
    hide Names;
    if m > 0 {
      NotNamedBeyond(lines, n, m - 1, k);
      NamedGrows(lines, n + (m - 1));
    }
  }

  lemma NothingMissing(lines: seq<string>, es: Entries)
    requires forall e :: e in es ==> NamedIn(lines, e.0)
    ensures Fresh(lines, es) == []
  {
    HasMember(Fresh(lines, es));
    hide NamedIn, Fresh;
    FreshAre(lines, es);
  }

  lemma HasMember(es: Entries)
    ensures es == [] || exists e :: e in es
  {
    if es != [] { assert es[0] in es; }
  }

  lemma TwiceLong(lines: seq<string>, a: Entries, b: Entries)
    requires AllUsable(a) && AllUsable(b) && SameDomain(a, b)
    ensures |UpdatedLines(lines, a)| == |lines| + |Fresh(lines, a)| && |UpdatedLines(lines, b)| == |lines| + |Fresh(lines, b)|
    ensures |UpdatedLines(UpdatedLines(lines, a), b)| == |UpdatedLines(lines, a)|
  {
    hide *;
    var once := UpdatedLines(lines, a);
    UsableAre(b);
    forall e | e in b ensures NamedIn(once, e.0) {
      AsMapAt(b, e);
      DomainHas(a, b, e.0);
      UpdatedNames(lines, a, e.0);
    }
    NothingMissing(once, b);
    Longer(once, b);
    Longer(lines, a);
    Longer(lines, b);
  }

  /** Line `i` of both results, for an old line and for an appended one. */
  lemma TwiceAt(lines: seq<string>, a: Entries, b: Entries, i: nat)
    requires AllUsable(a) && AllUsable(b) && SameDomain(a, b) && i < |lines| + |Fresh(lines, a)|
    ensures var twice, direct, n := UpdatedLines(UpdatedLines(lines, a), b), UpdatedLines(lines, b), |lines|;
            && |twice| == n + |Fresh(lines, a)| && |direct| == n + |Fresh(lines, b)|
            && (i < n ==> twice[i] == direct[i])
            && (i >= n && |twice| == |direct| ==> (twice[i] == direct[i] <==> Fresh(lines, a)[i - n].0 == Fresh(lines, b)[i - n].0))
  {
    hide *;
    TwiceLong(lines, a, b);
    var once := UpdatedLines(lines, a);
    NewAt(once, b, i);
    if i < |lines| {
      TwiceOldLine(lines, a, b, i);
      NewAt(lines, b, i);
    } else {
      TwiceNewLine(lines, a, b, i - |lines|);
      if |Fresh(lines, a)| == |Fresh(lines, b)| {
        var j, k := Fresh(lines, a)[i - |lines|].0, Fresh(lines, b)[i - |lines|].0;
        DirectNewLine(lines, b, i - |lines|);
        assert UpdatedLines(lines, b)[|lines| + (i - |lines|)] == UpdatedLines(lines, b)[i];
        if Entry(j, AsMap(b)[j]) == Entry(k, AsMap(b)[k]) { EntryKey(j, AsMap(b)[j], k, AsMap(b)[k]); }
      }
    }
  }

  lemma TwiceLinesIff(lines: seq<string>, a: Entries, b: Entries)
    requires AllUsable(a) && AllUsable(b) && SameDomain(a, b)
    ensures UpdatedLines(UpdatedLines(lines, a), b) == UpdatedLines(lines, b) <==> SameKeys(Fresh(lines, a), Fresh(lines, b))
  {
    hide *;
    var twice, direct, n := UpdatedLines(UpdatedLines(lines, a), b), UpdatedLines(lines, b), |lines|;
    var fa, fb := Fresh(lines, a), Fresh(lines, b);
    TwiceLong(lines, a, b);
    forall i | 0 <= i < n + |fa|
      ensures i < n ==> |direct| >= n && twice[i] == direct[i]
      ensures i >= n && |twice| == |direct| ==> (twice[i] == direct[i] <==> fa[i - n].0 == fb[i - n].0)
    {
      TwiceAt(lines, a, b, i);
    }
    SameKeysIff(fa, fb);
    if |fa| == |fb| {
      if twice == direct {
        forall m | 0 <= m < |fa| ensures fa[m].0 == fb[m].0 { assert twice[n + m] == direct[n + m]; }
      }
      if forall m :: 0 <= m < |fa| ==> fa[m].0 == fb[m].0 {
        forall i | 0 <= i < |twice| ensures twice[i] == direct[i] { }
      }
    }
  }

  lemma SameKeysIff(a: Entries, b: Entries)
    ensures SameKeys(a, b) <==> |a| == |b| && forall m :: 0 <= m < |a| ==> a[m].0 == b[m].0
  {
  }

  lemma NoFresh(lines: seq<string>)
    ensures SameKeys(Fresh(lines, []), Fresh(lines, []))
  {
  }

  lemma EmptyDomain(a: Entries, b: Entries)
    requires SameDomain(a, b) && AllUsable(a) && AllUsable(b)
    ensures a == [] <==> b == []
  {
    hide AsMap, SafeEntry;
    EmptyMap();
    AsMapHas(a);
    AsMapHas(b);
    if a != [] { assert a[0].0 in AsMap(b); }
    if b != [] { assert b[0].0 in AsMap(a); }
  }

  /** Updating the same keys again leaves the file as the second update alone would, byte for byte, exactly when the keys the
      file does not name come in the same order in both. */
  lemma UpdateTwiceIff(f: File, first: Entries, second: Entries)
    requires DistinctKeys(first) && DistinctKeys(second) && SameDomain(Usable(first), Usable(second))
    ensures Updated(Updated(f, first), second) == Updated(f, second) <==>
            SameKeys(Fresh(LinesOf(f), Usable(first)), Fresh(LinesOf(f), Usable(second)))
  {
    hide *;
    var a, b := Usable(first), Usable(second);
    UpdateMeans(f, first);
    UpdateMeans(f, second);
    UpdateMeans(Updated(f, first), second);
    UsableAreUsable(first);
    UsableAreUsable(second);
    EmptyDomain(a, b);
    if a == [] {
      NoFresh(LinesOf(f));
    } else {
      UpdatedContent(f, first);
      UpdatedContent(Updated(f, first), second);
      UpdatedContent(f, second);
      TwiceLinesIff(LinesOf(f), a, b);
    }
  }

  /** In particular it does when both updates list their keys in one order. */
  lemma UpdateTwice(f: File, first: Entries, second: Entries)
    requires DistinctKeys(first) && DistinctKeys(second) && SameKeys(Usable(first), Usable(second))
    ensures Updated(Updated(f, first), second) == Updated(f, second)
  {
    hide *;
    UsableAreUsable(first);
    UsableAreUsable(second);
    SameOrderSameDomain(Usable(first), Usable(second));
    FreshAlike(LinesOf(f), Usable(first), Usable(second));
    UpdateTwiceIff(f, first, second);
  }

  // ---- reading after two updates -----------------------------------------

  lemma {:induction false} WrittenCounts(r: seq<string>, es: Entries, k: string)
    requires SafeEntries(es)
    ensures (forall j :: 0 <= j < |es| ==> es[j].0 != k) ==> Count(r + Written(es), k) == Count(r, k)
    ensures (exists j :: 0 <= j < |es| && es[j].0 == k) ==> Count(r + Written(es), k) == Count(r, k) + 1
  {
    hide Parse, SafeKey, Count, Entry;
    if es == [] {
      assert r + Written(es) == r;
    } else {
      var n := |es| - 1;
      WrittenCounts(r, es[..n], k);
      var l := Entry(es[n].0, es[n].1);
      assert r + Written(es) == r + Written(es[..n]) + [l];
      OneMore(r + Written(es[..n]), l, k);
      EntryParses(es[n].0, es[n].1);
      if j :| 0 <= j < n && es[j].0 == k { assert es[..n][j].0 == k; }
    }
  }

  /** How many lines name a key after an update: an updated key at least one, any other as many as before. */
  lemma CountAfter(lines: seq<string>, es: Entries, k: string)
    requires AllUsable(es)
    ensures Count(UpdatedLines(lines, es), k) == if k in AsMap(es) && Count(lines, k) == 0 then 1 else Count(lines, k)
  {
    var u, r, fr := AsMap(es), Rewritten(lines, AsMap(es)), Fresh(lines, es);
    FreshAre(lines, es);
    UsableKeys(es);
    FreshSafe(lines, es);
    hide Parse, NamedIn, ReadBack, Lookup, Entry, SafeKey, Fresh, Count, Written, AllUsable, NewLine;
    assert lines[..|lines|] == lines && r[..|lines|] == r;
    RewrittenReads(lines, u, k, |lines|);
    CountNamed(lines, k);
    WrittenCounts(r, fr, k);
    AsMapHas(es);
    hide AsMap;
    if k in u && Count(lines, k) == 0 {
      var j :| 0 <= j < |es| && es[j] == (k, u[k]);
      assert es[j] in fr;
      var m :| 0 <= m < |fr| && fr[m] == es[j];
    } else {
      forall j | 0 <= j < |fr| ensures fr[j].0 != k { assert fr[j] in fr; }
    }
  }

  /** Reading after two updates is reading after the second alone, whenever the second names every key the first does and in
      whatever order. */
  lemma ReadTwice(f: File, first: Entries, second: Entries, k: string)
    requires DistinctKeys(first) && DistinctKeys(second)
    requires forall q :: q in AsMap(Usable(first)) ==> q in AsMap(Usable(second))
    ensures Get(ReadAll(Updated(Updated(f, first), second)), k) == Get(ReadAll(Updated(f, second)), k)
  {
    hide *;
    var g := Updated(f, first);
    ReadAfterUpdate(f, first, k);
    ReadAfterUpdate(g, second, k);
    ReadAfterUpdate(f, second, k);
    UsableAreUsable(first);
    UpdateMeans(f, first);
    EmptyMap();
    if Usable(first) != [] {
      UpdatedContent(f, first);
      CountAfter(LinesOf(f), Usable(first), k);
    }
  }
}
