/** The .env reader and updater of src/env.ts. */
module EnvFile {
  import opened Options
  import opened Text

  datatype File = Missing | Present(content: string)

  // ---- lines -------------------------------------------------------------

  predicate Quoted(v: string) {
    v != "" && ((v[0] == '"' && v[|v| - 1] == '"') || (v[0] == '\'' && v[|v| - 1] == '\''))
  }

  function Unquote(v: string): string {
    if !Quoted(v) then v else if |v| >= 2 then v[1..|v| - 1] else ""
  }

  /** The assignment a line makes, if any. */
  function Parse(line: string): Option<(string, string)> {
    var trimmed := Trim(line);
    if trimmed == "" || trimmed[0] == '#' then None
    else
      var eq := IndexOf(trimmed, "=", 0);
      if eq == -1 then None else Some((Trim(trimmed[..eq]), Unquote(Trim(trimmed[eq + 1..]))))
  }

  predicate Names(line: string, key: string) {
    Parse(line).Some? && Parse(line).value.0 == key
  }

  function Put(m: map<string, string>, p: Option<(string, string)>): map<string, string> {
    if p.None? then m else m[p.value.0 := p.value.1]
  }

  /** Later lines win. */
  function ReadLines(lines: seq<string>): map<string, string> {
    if lines == [] then map[] else Put(ReadLines(lines[..|lines| - 1]), Parse(lines[|lines| - 1]))
  }

  function ReadAll(f: File): map<string, string> {
    if f.Missing? then map[] else ReadLines(Split(f.content, '\n'))
  }

  /** Only the wanted keys, when some are named. */
  function Wanted(m: map<string, string>, keys: Option<set<string>>): map<string, string> {
    if keys.None? then m else map k | k in m && k in keys.value :: m[k]
  }

  // ---- safe entries ------------------------------------------------------

  predicate IsLetter(c: char) { 'A' <= c <= 'Z' || 'a' <= c <= 'z' || c == '_' }

  predicate SafeKey(k: string) {
    k != "" && IsLetter(k[0]) && forall i :: 0 <= i < |k| ==> IsLetter(k[i]) || '0' <= k[i] <= '9'
  }

  predicate SafeChar(c: char) {
    var n := c as int;
    n > 0x1F && n != 0x7F && n != 0x85 && n != 0x2028 && n != 0x2029
  }

  predicate SafeEntry(k: string, v: string) {
    SafeKey(k) && forall i :: 0 <= i < |v| ==> SafeChar(v[i])
  }

  /** By code: a key is made of ASCII letters, digits and underscores and begins with no digit; a value holds no control
      character and nothing that ends a line. */
  lemma SafeEntryIff(k: string, v: string)
    ensures SafeEntry(k, v) <==>
              && k != "" && !(48 <= k[0] as int <= 57)
              && (forall c :: c in k ==> var n := c as int; 48 <= n <= 57 || 65 <= n <= 90 || n == 95 || 97 <= n <= 122)
              && (forall c :: c in v ==> c as int >= 32 && c as int !in {0x7F, 0x85, 0x2028, 0x2029})
  {
    if SafeEntry(k, v) {
      assert IsLetter(k[0]);
    } else {
      if i :| 0 <= i < |v| && !SafeChar(v[i]) { assert v[i] in v; }
      if i :| 0 <= i < |k| && !(IsLetter(k[i]) || '0' <= k[i] <= '9') { assert k[i] in k; }
      if k != "" { assert k[0] in k; }
    }
  }

  type Entries = seq<(string, string)>

  ghost predicate DistinctKeys(es: Entries) {
    forall i, j :: 0 <= i < j < |es| ==> es[i].0 != es[j].0
  }

  /** The entries that are written: safe ones with a non-empty value. */
  function Usable(es: Entries): Entries {
    if es == [] then []
    else (if es[0].1 != "" && SafeEntry(es[0].0, es[0].1) then [es[0]] else []) + Usable(es[1..])
  }

  ghost predicate AllUsable(es: Entries) {
    DistinctKeys(es) && forall i :: 0 <= i < |es| ==> es[i].1 != "" && SafeEntry(es[i].0, es[i].1)
  }

  lemma {:induction false} UsableAreUsable(es: Entries)
    requires DistinctKeys(es)
    ensures AllUsable(Usable(es)) && DistinctKeys(Usable(es))
    ensures forall e :: e in Usable(es) <==> e in es && e.1 != "" && SafeEntry(e.0, e.1)
  {
    hide SafeEntry;
    if es != [] {
      UsableAreUsable(es[1..]);
      assert es == [es[0]] + es[1..];
      var rest := Usable(es[1..]);
      assert forall k :: 0 <= k < |rest| ==> rest[k] in rest;
    }
  }

  function AsMap(es: Entries): map<string, string> {
    if es == [] then map[] else AsMap(es[1..])[es[0].0 := es[0].1]
  }

  lemma {:induction false} AsMapHas(es: Entries)
    requires DistinctKeys(es)
    ensures forall i :: 0 <= i < |es| ==> es[i].0 in AsMap(es) && AsMap(es)[es[i].0] == es[i].1
    ensures forall k :: k in AsMap(es) ==> exists i :: 0 <= i < |es| && es[i] == (k, AsMap(es)[k])
  {
    if es != [] {
      AsMapHas(es[1..]);
      assert es == [es[0]] + es[1..];
      var m, n := AsMap(es), AsMap(es[1..]);
      forall k | k in m ensures exists i :: 0 <= i < |es| && es[i] == (k, m[k]) {
        if k == es[0].0 { assert es[0] == (k, m[k]); }
        else { var i :| 0 <= i < |es[1..]| && es[1..][i] == (k, n[k]); assert es[i + 1] == (k, m[k]); }
      }
    }
  }

  function Entry(k: string, v: string): string { k + "=" + v }

  // ---- updating ----------------------------------------------------------

  predicate NamedIn(lines: seq<string>, key: string) {
    exists i :: 0 <= i < |lines| && Names(lines[i], key)
  }

  /** Line `i` after the update: the first line naming an updated key is rewritten, every other line is kept. */
  function NewLine(lines: seq<string>, u: map<string, string>, i: nat): string
    requires i < |lines|
  {
    var p := Parse(lines[i]);
    if p.Some? && p.value.0 in u && !NamedIn(lines[..i], p.value.0) then Entry(p.value.0, u[p.value.0]) else lines[i]
  }

  function Rewritten(lines: seq<string>, u: map<string, string>): seq<string> {
    seq(|lines|, i requires 0 <= i < |lines| => NewLine(lines, u, i))
  }

  /** The entries for the keys no line names. */
  function Fresh(lines: seq<string>, es: Entries): Entries {
    if es == [] then []
    else Fresh(lines, es[..|es| - 1]) + if NamedIn(lines, es[|es| - 1].0) then [] else [es[|es| - 1]]
  }

  function Written(es: Entries): seq<string> {
    seq(|es|, i requires 0 <= i < |es| => Entry(es[i].0, es[i].1))
  }

  function LinesOf(f: File): seq<string> {
    if f.Missing? || f.content == "" then [] else Split(f.content, '\n')
  }

  function UpdatedLines(lines: seq<string>, es: Entries): seq<string> {
    Rewritten(lines, AsMap(es)) + Written(Fresh(lines, es))
  }

  function Updated(f: File, updates: Entries): File {
    var es := Usable(updates);
    if es == [] then f else Present(Join(UpdatedLines(LinesOf(f), es), "\n"))
  }

  class EnvStore {
    var file: File

    constructor (file: File)
      ensures this.file == file
    {
      this.file := file;
    }

    method ReadEnvFile(keys: Option<set<string>>) returns (result: map<string, string>)
      ensures result == Wanted(ReadAll(file), keys)
    {
      hide *;
      ReadNothing(file, keys);
      result := map[];
      if file.Missing? {
        return;
      }
      var lines := Split(file.content, '\n');
      for i := 0 to |lines|
        invariant result == Wanted(ReadLines(lines[..i]), keys)
      {
        ReadStep(lines, i, keys);
        var p := Parse(lines[i]);
        if p.None? {
          continue;
        }
        if keys.Some? && p.value.0 !in keys.value {
          continue;
        }
        result := result[p.value.0 := p.value.1];
      }
      assert lines[..|lines|] == lines;
    }

    method UpdateEnvFile(updates: Entries)
      requires DistinctKeys(updates)
      modifies this
      ensures file == Updated(old(file), updates)
    {
      hide *;
      var entries := Usable(updates);
      UpdateMeans(file, updates);
      if entries == [] {
        return;
      }
      UsableAreUsable(updates);
      var all := AsMap(entries);
      var remaining := all;
      var lines := LinesOf(file);
      var out := [];
      NothingRewritten(lines, all);
      for i := 0 to |lines|
        invariant file == old(file)
        invariant |Rewritten(lines, all)| == |lines| && out == Rewritten(lines, all)[..i]
        invariant remaining == Remaining(lines[..i], all)
      {
        RewriteStep(lines, all, i);
        var line := lines[i];
        var p := Parse(line);
        if p.Some? && p.value.0 in remaining {
          line := Entry(p.value.0, remaining[p.value.0]);
          remaining := map k | k in remaining && k != p.value.0 :: remaining[k];
        }
        out := out + [line];
      }
      assert lines[..|lines|] == lines && Rewritten(lines, all)[..|lines|] == Rewritten(lines, all);
      NothingFresh(lines, entries);
      assert out == Rewritten(lines, all) + Written(Fresh(lines, entries[..0]));
      for i := 0 to |entries|
        invariant file == old(file)
        invariant out == Rewritten(lines, all) + Written(Fresh(lines, entries[..i]))
      {
        FreshStep(lines, entries, i);
        Regroup(Rewritten(lines, all), Written(Fresh(lines, entries[..i])), [Entry(entries[i].0, entries[i].1)]);
        if entries[i].0 in remaining {
          out := out + [Entry(entries[i].0, entries[i].1)];
        }
      }
      assert entries[..|entries|] == entries;
      file := Present(Join(out, "\n"));
    }
  }

  // ---- one step of each loop ---------------------------------------------

  lemma ReadNothing(f: File, keys: Option<set<string>>)
    ensures Wanted(map[], keys) == map[] && ReadLines([]) == map[]
    ensures ReadAll(f) == if f.Missing? then map[] else ReadLines(Split(f.content, '\n'))
  {
  }

  lemma ReadStep(lines: seq<string>, i: nat, keys: Option<set<string>>)
    requires i < |lines|
    ensures var p := Parse(lines[i]);
            Wanted(ReadLines(lines[..i + 1]), keys) ==
            if p.None? || (keys.Some? && p.value.0 !in keys.value) then Wanted(ReadLines(lines[..i]), keys)
            else Wanted(ReadLines(lines[..i]), keys)[p.value.0 := p.value.1]
  {
    hide Parse;
    ReadGrows(lines, i);
  }

  lemma ReadGrows(lines: seq<string>, i: nat)
    requires i < |lines|
    ensures ReadLines(lines[..i + 1]) == Put(ReadLines(lines[..i]), Parse(lines[i]))
  {
    hide Parse;
    hide Put;
    assert lines[..i + 1][..i] == lines[..i];
  }

  lemma UpdateMeans(f: File, updates: Entries)
    ensures var es := Usable(updates);
            Updated(f, updates) == if es == [] then f else Present(Join(UpdatedLines(LinesOf(f), es), "\n"))
    ensures forall lines, es :: UpdatedLines(lines, es) == Rewritten(lines, AsMap(es)) + Written(Fresh(lines, es))
  {
    hide Usable, LinesOf, Join, AsMap, Rewritten, Written, Fresh;
  }

  /** The updates whose key no line so far names. */
  function Remaining(lines: seq<string>, u: map<string, string>): map<string, string> {
    map k | k in u && !NamedIn(lines, k) :: u[k]
  }

  lemma NothingRewritten(lines: seq<string>, u: map<string, string>)
    ensures |Rewritten(lines, u)| == |lines| && Remaining(lines[..0], u) == u
  {
  }

  lemma RewriteStep(lines: seq<string>, u: map<string, string>, i: nat)
    requires i < |lines|
    ensures var p, r := Parse(lines[i]), Remaining(lines[..i], u);
            && Remaining(lines[..i + 1], u) == (if p.Some? then map k | k in r && k != p.value.0 :: r[k] else r)
            && NewLine(lines, u, i) == (if p.Some? && p.value.0 in r then Entry(p.value.0, r[p.value.0]) else lines[i])
            && Rewritten(lines, u)[..i + 1] == Rewritten(lines, u)[..i] + [NewLine(lines, u, i)]
  {
    hide Parse, Entry, NamedIn;
    NamedGrows(lines, i);
    var p, r, s := Parse(lines[i]), Remaining(lines[..i], u), Remaining(lines[..i + 1], u);
    assert forall k :: Names(lines[i], k) <==> p.Some? && p.value.0 == k;
    if p.Some? { assert s == map k | k in r && k != p.value.0 :: r[k]; } else { assert s == r; }
  }

  lemma NothingFresh(lines: seq<string>, es: Entries)
    ensures Written(Fresh(lines, es[..0])) == []
  {
  }

  lemma FreshStep(lines: seq<string>, es: Entries, i: nat)
    requires i < |es| && DistinctKeys(es)
    ensures Fresh(lines, es[..i + 1]) == Fresh(lines, es[..i]) + if es[i].0 in Remaining(lines, AsMap(es)) then [es[i]] else []
    ensures Written(Fresh(lines, es[..i + 1])) ==
            Written(Fresh(lines, es[..i])) + if es[i].0 in Remaining(lines, AsMap(es)) then [Entry(es[i].0, es[i].1)] else []
  {
    hide Entry, NamedIn, AsMap;
    AsMapHas(es);
    assert es[..i + 1][..i] == es[..i];
  }

  lemma NamedGrows(lines: seq<string>, i: nat)
    requires i < |lines|
    ensures forall k :: NamedIn(lines[..i + 1], k) <==> NamedIn(lines[..i], k) || Names(lines[i], k)
  {
    hide Names;
    var a, b := lines[..i], lines[..i + 1];
    forall k ensures NamedIn(b, k) <==> NamedIn(a, k) || Names(lines[i], k) {
      if NamedIn(a, k) { var j :| 0 <= j < |a| && Names(a[j], k); assert Names(b[j], k); }
      if Names(lines[i], k) { assert Names(b[i], k); }
      if NamedIn(b, k) { var j :| 0 <= j < |b| && Names(b[j], k); if j < i { assert Names(a[j], k); } }
    }
  }
}
