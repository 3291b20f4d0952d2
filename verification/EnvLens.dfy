/** What updating the .env file does to reading it. */
module EnvLens {
  import opened Options
  import opened Text
  import opened EnvFile

  // ---- a written line, read back -----------------------------------------

  /** What the reader makes of a written value. */
  function ReadBack(v: string): string { Unquote(Trim(v)) }

  lemma {:induction false} TrimShortens(v: string)
    ensures |Trim(v)| <= |v|
    ensures Trim(v) == v <==> v == "" || (!IsSpace(v[0]) && !IsSpace(v[|v| - 1]))
  {
    var a := LeadRun(v, IsSpace);
    if v == "" || (!IsSpace(v[0]) && !IsSpace(v[|v| - 1])) { TrimFixed(v); }
    else if a == 0 { assert TrimStart(v) == v; }
  }

  /** Exactly the values that survive being written and read. */
  lemma ReadsBackIff(v: string)
    ensures ReadBack(v) == v <==> v == "" || (!IsSpace(v[0]) && !IsSpace(v[|v| - 1]) && !Quoted(v))
  {
    hide IsSpace, Trim;
    TrimShortens(v);
  }

  lemma TrimTail(v: string)
    ensures Trim(v[..TailStart(v, IsSpace)]) == Trim(v)
  {
    hide IsSpace, LeadRun, TailStart, Trim;
    var a, b := LeadRun(v, IsSpace), TailStart(v, IsSpace);
    var w := v[..b];
    if a < b {
      assert v[a..b] == w[a..b];
      TrimIs(v, a, b);
      TrimIs(w, a, b);
    } else {
      assert b == 0;
      TrimBlank(v);
      TrimBlank(w);
    }
  }

  /** A written line names its key and nothing else. */
  lemma EntryParses(k: string, v: string)
    requires SafeKey(k)
    ensures Parse(Entry(k, v)) == Some((k, ReadBack(v)))
  {
    hide *;
    var w := v[..TailStart(v, IsSpace)];
    EntryTrims(k, v);
    EntryIs(k, v, w);
    ParsesAt(Entry(k, v), k + "=" + w, k, w);
    KeyTrims(k);
    TrimTail(v);
    BackIs(v, w);
  }

  lemma EntryIs(k: string, v: string, w: string)
    requires w <= v
    ensures Entry(k, v)[..|k| + 1 + |w|] == k + "=" + w
  {
  }

  lemma BackIs(v: string, w: string)
    requires Trim(w) == Trim(v)
    ensures ReadBack(v) == Unquote(Trim(w))
  {
  }

  lemma ParsesAt(line: string, t: string, k: string, w: string)
    requires SafeKey(k) && Trim(line) == t == k + "=" + w
    ensures Parse(line) == Some((Trim(k), Unquote(Trim(w))))
  {
    hide Unquote, Trim, OccursAt;
    KeyLacks(k);
    EqualsAt(k, w);
    assert t[0] == k[0];
    assert t[..|k|] == k && t[|k| + 1..] == w;
  }

  lemma KeyLacks(k: string)
    requires SafeKey(k)
    ensures Lacks(k, '=') && k[0] != '#'
  {
  }

  lemma EqualsAt(k: string, w: string)
    requires Lacks(k, '=')
    ensures IndexOf(k + "=" + w, "=", 0) == |k|
  {
    var t := k + "=" + w;
    OneChar(t, '=');
    hide OccursAt;
    assert t[|k|] == '=';
    assert forall i :: 0 <= i < |k| ==> t[i] == k[i];
  }

  lemma KeyTrims(k: string)
    requires SafeKey(k)
    ensures Trim(k) == k
  {
    hide Trim;
    TrimFixed(k);
  }

  lemma NoSpace(c: char)
    requires IsLetter(c) || c == '='
    ensures !IsSpace(c)
  {
  }

  lemma EntryTrims(k: string, v: string)
    requires SafeKey(k)
    ensures Trim(Entry(k, v)) == Entry(k, v)[..|k| + 1 + TailStart(v, IsSpace)]
  {
    hide IsSpace, Trim, TailStart, IsLetter;
    var e, t := Entry(k, v), TailStart(v, IsSpace);
    var b := |k| + 1 + t;
    NoSpace(k[0]);
    NoSpace('=');
    assert e[0] == k[0] && e[|k|] == '=';
    assert e[b..] == v[t..];
    assert t > 0 ==> e[b - 1] == v[t - 1];
    TrimIs(e, 0, b);
  }

  // ---- one key across the lines ------------------------------------------

  /** The value read for `k`: the last line naming it decides. */
  function Lookup(lines: seq<string>, k: string): Option<string> {
    if lines == [] then None
    else if Names(lines[|lines| - 1], k) then Some(Parse(lines[|lines| - 1]).value.1)
    else Lookup(lines[..|lines| - 1], k)
  }

  function Count(lines: seq<string>, k: string): nat {
    if lines == [] then 0
    else Count(lines[..|lines| - 1], k) + if Names(lines[|lines| - 1], k) then 1 else 0
  }

  function Get(m: map<string, string>, k: string): Option<string> {
    if k in m then Some(m[k]) else None
  }

  lemma {:induction false} ReadIsLookup(lines: seq<string>, k: string)
    ensures Get(ReadLines(lines), k) == Lookup(lines, k)
  {
    hide Parse;
    if lines != [] { ReadIsLookup(lines[..|lines| - 1], k); }
  }

  lemma OneMore(lines: seq<string>, l: string, k: string)
    ensures Lookup(lines + [l], k) == if Names(l, k) then Some(Parse(l).value.1) else Lookup(lines, k)
    ensures Count(lines + [l], k) == Count(lines, k) + if Names(l, k) then 1 else 0
  {
    hide Parse;
    assert (lines + [l])[..|lines|] == lines;
  }

  lemma {:induction false} CountNamed(lines: seq<string>, k: string)
    ensures NamedIn(lines, k) <==> Count(lines, k) > 0
  {
    hide Parse, Names;
    if lines != [] {
      var n := |lines| - 1;
      CountNamed(lines[..n], k);
      NamedGrows(lines, n);
      assert lines[..n + 1] == lines;
    }
  }

  ghost predicate SafeKeys(u: map<string, string>) {
    forall k :: k in u ==> SafeKey(k)
  }

  /** Rewriting changes which value a line gives, never which key it names. */
  lemma NewLineNames(lines: seq<string>, u: map<string, string>, i: nat, k: string)
    requires i < |lines| && SafeKeys(u)
    ensures Names(NewLine(lines, u, i), k) <==> Names(lines[i], k)
    ensures Names(lines[i], k) && k in u && !NamedIn(lines[..i], k) ==> Parse(NewLine(lines, u, i)) == Some((k, ReadBack(u[k])))
    ensures Names(lines[i], k) && (k !in u || NamedIn(lines[..i], k)) ==> NewLine(lines, u, i) == lines[i]
  {
    hide Parse, NamedIn, ReadBack, Entry;
    var p := Parse(lines[i]);
    if p.Some? && p.value.0 in u { EntryParses(p.value.0, u[p.value.0]); }
  }

  lemma {:induction false} RewrittenReads(lines: seq<string>, u: map<string, string>, k: string, i: nat)
    requires i <= |lines| && SafeKeys(u)
    ensures var a, b := lines[..i], Rewritten(lines, u)[..i];
            && Count(b, k) == Count(a, k)
            && Lookup(b, k) == if k in u && Count(a, k) == 1 then Some(ReadBack(u[k])) else Lookup(a, k)
  {
    hide Parse, Names, NamedIn, NewLine, ReadBack, Lookup, Count, SafeKeys;
    if i == 0 {
      assert lines[..0] == [] == Rewritten(lines, u)[..0];
      NoLines(k);
    } else {
      RewrittenReads(lines, u, k, i - 1);
      var a, b := lines[..i - 1], Rewritten(lines, u)[..i - 1];
      assert lines[..i] == a + [lines[i - 1]];
      assert Rewritten(lines, u)[..i] == b + [NewLine(lines, u, i - 1)];
      OneMore(a, lines[i - 1], k);
      OneMore(b, NewLine(lines, u, i - 1), k);
      NewLineNames(lines, u, i - 1, k);
      CountNamed(a, k);
    }
  }

  lemma NoLines(k: string)
    ensures Count([], k) == 0 && Lookup([], k) == None
  {
  }

  ghost predicate SafeEntries(es: Entries) {
    DistinctKeys(es) && forall i :: 0 <= i < |es| ==> SafeKey(es[i].0)
  }

  lemma {:induction false} WrittenReads(r: seq<string>, es: Entries, k: string)
    requires SafeEntries(es)
    ensures (forall j :: 0 <= j < |es| ==> es[j].0 != k) ==> Lookup(r + Written(es), k) == Lookup(r, k)
    ensures forall j :: 0 <= j < |es| && es[j].0 == k ==> Lookup(r + Written(es), k) == Some(ReadBack(es[j].1))
  {
    hide Parse, SafeKey, ReadBack, Lookup, Entry;
    if es == [] {
      assert r + Written(es) == r;
    } else {
      var n := |es| - 1;
      WrittenReads(r, es[..n], k);
      var l := Entry(es[n].0, es[n].1);
      assert r + Written(es) == r + Written(es[..n]) + [l];
      OneMore(r + Written(es[..n]), l, k);
      EntryParses(es[n].0, es[n].1);
    }
  }

  lemma {:induction false} FreshAre(lines: seq<string>, es: Entries)
    ensures forall e :: e in Fresh(lines, es) <==> e in es && !NamedIn(lines, e.0)
    ensures DistinctKeys(es) ==> DistinctKeys(Fresh(lines, es))
  {
    hide NamedIn;
    if es != [] {
      var n := |es| - 1;
      FreshAre(lines, es[..n]);
      assert es == es[..n] + [es[n]];
      var f := Fresh(lines, es[..n]);
      assert forall j :: 0 <= j < |f| ==> f[j] in f;
    }
  }

  /** The exact law on lines: the update is read back where at most one line named the key. */
  lemma LinesLaw(lines: seq<string>, es: Entries, k: string)
    requires AllUsable(es)
    ensures Lookup(UpdatedLines(lines, es), k) ==
            if k in AsMap(es) && Count(lines, k) <= 1 then Some(ReadBack(AsMap(es)[k])) else Lookup(lines, k)
  {
    var u, r, fr := AsMap(es), Rewritten(lines, AsMap(es)), Fresh(lines, es);
    FreshAre(lines, es);
    UsableKeys(es);
    FreshSafe(lines, es);
    hide Parse, NamedIn, ReadBack, Lookup, Entry, SafeKey, Fresh, Count, Written, AllUsable, NewLine;
    assert lines[..|lines|] == lines && r[..|lines|] == r;
    RewrittenReads(lines, u, k, |lines|);
    CountNamed(lines, k);
    WrittenReads(r, fr, k);
    AsMapHas(es);
    hide AsMap;
    if k in u && Count(lines, k) == 0 {
      var j :| 0 <= j < |es| && es[j] == (k, u[k]);
      assert es[j] in fr;
      var m :| 0 <= m < |fr| && fr[m] == es[j];
    } else {
      forall j | 0 <= j < |fr| ensures fr[j].0 != k { assert fr[j] in fr; }
    }
  }

  lemma UsableKeys(es: Entries)
    requires AllUsable(es)
    ensures DistinctKeys(es) && SafeKeys(AsMap(es))
  {
    hide AsMap, SafeKey;
    AsMapHas(es);
  }

  lemma FreshSafe(lines: seq<string>, es: Entries)
    requires AllUsable(es)
    ensures SafeEntries(Fresh(lines, es))
  {
    hide Fresh, SafeKey, NamedIn;
    FreshAre(lines, es);
    var fr := Fresh(lines, es);
    forall i | 0 <= i < |fr| ensures SafeKey(fr[i].0) { assert fr[i] in fr; }
  }

  // ---- the file ----------------------------------------------------------

  lemma ReadsLines(f: File)
    ensures ReadAll(f) == ReadLines(LinesOf(f))
  {
    hide Parse, Trim;
    if f == Present("") {
      assert Split("", '\n') == [""];
      assert Parse("") == None by { BlankLine(); }
      ReadGrows([""], 0);
      assert [""][..1] == [""] && [""][..0] == [];
    }
  }

  lemma BlankLine()
    ensures Parse("") == None
  {
    TrimBlank("");
  }

  lemma {:induction false} JoinNonEmpty(parts: seq<string>, i: nat)
    requires i < |parts| && parts[i] != ""
    ensures Join(parts, "\n") != ""
  {
    if i > 0 { JoinNonEmpty(parts[1..], i - 1); }
  }

  lemma EntryLacks(k: string, v: string)
    requires SafeEntry(k, v)
    ensures Lacks(Entry(k, v), '\n') && Entry(k, v) != ""
  {
  }

  lemma LinesLack(f: File)
    ensures forall i :: 0 <= i < |LinesOf(f)| ==> Lacks(LinesOf(f)[i], '\n')
  {
    hide Split;
    if f.Present? { SplitLacks(f.content, '\n'); }
  }

  lemma NewAt(lines: seq<string>, es: Entries, i: nat)
    requires i < |lines|
    ensures |UpdatedLines(lines, es)| >= |lines| && UpdatedLines(lines, es)[i] == NewLine(lines, AsMap(es), i)
  {
    hide NewLine, Fresh, AsMap;
  }

  lemma Longer(lines: seq<string>, es: Entries)
    ensures |UpdatedLines(lines, es)| == |lines| + |Fresh(lines, es)|
    ensures forall m :: 0 <= m < |Fresh(lines, es)| ==>
            UpdatedLines(lines, es)[|lines| + m] == Entry(Fresh(lines, es)[m].0, Fresh(lines, es)[m].1)
  {
    hide NewLine, Fresh, Entry;
  }

  /** Every line of an updated file is an old line or one written entry. */
  lemma UpdatedFrom(lines: seq<string>, es: Entries, i: nat)
    requires AllUsable(es) && i < |UpdatedLines(lines, es)|
    ensures var l := UpdatedLines(lines, es)[i];
            (i < |lines| && l == lines[i]) || exists e :: e in es && l == Entry(e.0, e.1)
  {
    hide *;
    UsableAre(es);
    AsMapHas(es);
    FreshAre(lines, es);
    Longer(lines, es);
    var u, fr := AsMap(es), Fresh(lines, es);
    if i < |lines| {
      NewAt(lines, es, i);
      NewLineFrom(lines, u, i);
      if q :| q in u && NewLine(lines, u, i) == Entry(q, u[q]) {
        var j :| 0 <= j < |es| && es[j] == (q, u[q]);
        assert es[j] in es;
      }
    } else {
      assert fr[i - |lines|] in fr;
      assert UpdatedLines(lines, es)[|lines| + (i - |lines|)] == Entry(fr[i - |lines|].0, fr[i - |lines|].1);
    }
  }

  lemma UsableAre(es: Entries)
    requires AllUsable(es)
    ensures DistinctKeys(es) && forall e :: e in es ==> SafeEntry(e.0, e.1)
  {
    hide SafeEntry;
  }

  lemma NewLineFrom(lines: seq<string>, u: map<string, string>, i: nat)
    requires i < |lines|
    ensures NewLine(lines, u, i) == lines[i] || exists q :: q in u && NewLine(lines, u, i) == Entry(q, u[q])
  {
    hide Parse, NamedIn, Entry;
  }

  lemma UpdatedLack(f: File, es: Entries)
    requires AllUsable(es)
    ensures forall i :: 0 <= i < |UpdatedLines(LinesOf(f), es)| ==> Lacks(UpdatedLines(LinesOf(f), es)[i], '\n')
  {
    LinesLack(f);
    hide UpdatedLines, LinesOf, Entry, SafeEntry, Lacks;
    var out := UpdatedLines(LinesOf(f), es);
    forall i | 0 <= i < |out| ensures Lacks(out[i], '\n') {
      UpdatedFrom(LinesOf(f), es, i);
      if e :| e in es && out[i] == Entry(e.0, e.1) { EntryLacks(e.0, e.1); }
    }
  }

  /** After the update every updated key is named, so the file is not blank. */
  lemma UpdatedNames(lines: seq<string>, es: Entries, k: string)
    requires AllUsable(es) && k in AsMap(es)
    ensures NamedIn(UpdatedLines(lines, es), k)
  {
    hide UpdatedLines, AllUsable, AsMap, ReadBack, Parse, NamedIn, Lookup, Count;
    LinesLaw(lines, es, k);
    LookupNamed(UpdatedLines(lines, es), k);
    LookupNamed(lines, k);
    CountNamed(lines, k);
  }

  lemma {:induction false} LookupNamed(lines: seq<string>, k: string)
    ensures Lookup(lines, k).Some? <==> NamedIn(lines, k)
  {
    hide Parse, Names;
    if lines != [] {
      var n := |lines| - 1;
      LookupNamed(lines[..n], k);
      NamedGrows(lines, n);
      assert lines[..n + 1] == lines;
    }
  }

  /** The lines of the updated file are the updated lines: nothing written can start a further line. */
  lemma UpdatedContent(f: File, updates: Entries)
    requires DistinctKeys(updates) && Usable(updates) != []
    ensures LinesOf(Updated(f, updates)) == UpdatedLines(LinesOf(f), Usable(updates))
  {
    hide *;
    var es := Usable(updates);
    var out := UpdatedLines(LinesOf(f), es);
    UsableAreUsable(updates);
    UpdateMeans(f, updates);
    UpdatedLack(f, es);
    FirstNamed(LinesOf(f), es);
    var i :| 0 <= i < |out| && out[i] != "";
    JoinNonEmpty(out, i);
    SplitJoin(out, '\n');
    LinesMean(Present(Join(out, "\n")));
  }

  lemma LinesMean(f: File)
    ensures f.Present? && f.content != "" ==> LinesOf(f) == Split(f.content, '\n')
  {
  }

  lemma FirstNamed(lines: seq<string>, es: Entries)
    requires AllUsable(es) && es != []
    ensures var out := UpdatedLines(lines, es); exists i :: 0 <= i < |out| && out[i] != ""
  {
    hide UpdatedLines, AsMap, Parse;
    AsMapHas(es);
    UpdatedNames(lines, es, es[0].0);
    var out := UpdatedLines(lines, es);
    var i :| 0 <= i < |out| && Names(out[i], es[0].0);
    BlankLine();
  }

  // ---- the laws ----------------------------------------------------------

  /** What key `k` reads as after an update: the new value if at most one line named it. With two or more lines the
      updater rewrites the first while the reader takes the last, and the old value stays. */
  lemma ReadAfterUpdate(f: File, updates: Entries, k: string)
    requires DistinctKeys(updates)
    ensures var u := AsMap(Usable(updates));
            Get(ReadAll(Updated(f, updates)), k) ==
            if k in u && Count(LinesOf(f), k) <= 1 then Some(ReadBack(u[k])) else Get(ReadAll(f), k)
  {
    hide *;
    UsableAreUsable(updates);
    UpdateMeans(f, updates);
    ReadsLines(f);
    ReadIsLookup(LinesOf(f), k);
    EmptyMap();
    if Usable(updates) != [] {
      var g := Updated(f, updates);
      UpdatedContent(f, updates);
      ReadsLines(g);
      ReadIsLookup(LinesOf(g), k);
      LinesLaw(LinesOf(f), Usable(updates), k);
    }
  }

  lemma EmptyMap()
    ensures AsMap([]) == map[]
  {
  }

  /** An update reads back as "the old map overridden by the update" exactly when every updated key is named by at most
      one line and its value reads back as itself, or it is named twice and already had that value. */
  lemma LensIff(f: File, updates: Entries)
    requires DistinctKeys(updates)
    ensures var u := AsMap(Usable(updates));
            ReadAll(Updated(f, updates)) == ReadAll(f) + u <==>
            forall k :: k in u ==> if Count(LinesOf(f), k) <= 1 then ReadBack(u[k]) == u[k] else Get(ReadAll(f), k) == Some(u[k])
  {
    var u, old', new' := AsMap(Usable(updates)), ReadAll(f), ReadAll(Updated(f, updates));
    hide AsMap, Usable, ReadAll, Updated, Count, LinesOf, ReadBack;
    forall k ensures Get(new', k) == if k in u && Count(LinesOf(f), k) <= 1 then Some(ReadBack(u[k])) else Get(old', k) {
      ReadAfterUpdate(f, updates, k);
    }
    SameMaps(new', old' + u);
    forall k | k in u ensures Get(new', k) == Some(u[k]) <==>
        if Count(LinesOf(f), k) <= 1 then ReadBack(u[k]) == u[k] else Get(old', k) == Some(u[k]) {
    }
  }

  lemma SameMaps(a: map<string, string>, b: map<string, string>)
    ensures a == b <==> forall k :: Get(a, k) == Get(b, k)
  {
    if forall k :: Get(a, k) == Get(b, k) {
      forall k ensures k in a <==> k in b { assert Get(a, k) == Get(b, k); }
      forall k | k in a ensures a[k] == b[k] { assert Get(a, k) == Get(b, k); }
    }
  }

  /** No line is lost or moved: a line that names no updated key is kept where it was, a line that does name one still
      names that key, and whatever follows the old lines is an updated key no line named. */
  lemma OtherLinesStay(f: File, updates: Entries, i: nat)
    requires DistinctKeys(updates) && i < |LinesOf(Updated(f, updates))|
    ensures var u, old', new' := AsMap(Usable(updates)), LinesOf(f), LinesOf(Updated(f, updates));
            && |new'| >= |old'|
            && (i < |old'| && (forall k :: k in u ==> !Names(old'[i], k)) ==> new'[i] == old'[i])
            && (i < |old'| ==> forall k :: Names(new'[i], k) <==> Names(old'[i], k))
            && (i >= |old'| ==> exists k :: k in u && !NamedIn(old', k) && new'[i] == Entry(k, u[k]))
  {
    hide *;
    UsableAreUsable(updates);
    UpdateMeans(f, updates);
    if Usable(updates) != [] {
      UpdatedContent(f, updates);
      LineByLine(LinesOf(f), Usable(updates), i);
    }
  }

  lemma LineByLine(lines: seq<string>, es: Entries, i: nat)
    requires AllUsable(es) && i < |UpdatedLines(lines, es)|
    ensures var u, out := AsMap(es), UpdatedLines(lines, es);
            && |out| >= |lines|
            && (i < |lines| && (forall k :: k in u ==> !Names(lines[i], k)) ==> out[i] == lines[i])
            && (i < |lines| ==> forall k :: Names(out[i], k) <==> Names(lines[i], k))
            && (i >= |lines| ==> exists k :: k in u && !NamedIn(lines, k) && out[i] == Entry(k, u[k]))
  {
    var u, fr := AsMap(es), Fresh(lines, es);
    UsableKeys(es);
    FreshAre(lines, es);
    AsMapHas(es);
    hide Parse, NamedIn, Entry, Fresh, AsMap, AllUsable, SafeKeys;
    if i < |lines| {
      forall k ensures Names(NewLine(lines, u, i), k) <==> Names(lines[i], k) { NewLineNames(lines, u, i, k); }
    } else {
      var e := fr[i - |lines|];
      assert e in es;
      var j :| 0 <= j < |es| && es[j] == e;
    }
  }
}
