/** Several processes issuing the token of one name, step by step, with a crash allowed after any step
    (src/agent-tokens.ts:91-126). The in-process lock makes one process one sequence of calls; nothing orders two
    processes but the transaction. */
module TokenRuns {
  import opened Options
  import opened AgentTokens

  /** Where one process stands inside issue(). */
  datatype Pc =
    | Idle
    | Entered(now: int, rotate: bool)
    | Looked(now: int, rotate: bool, held: Option<nat>)
    | Minted(now: int, held: Option<nat>, drawn: nat)
    | Written(now: int, held: Option<nat>, drawn: nat)
    | Done(status: Status)

  /** `drawn` holds every hash there ever was: a random draw is never one of them. */
  datatype State = State(file: Option<nat>, db: Db, drawn: set<nat>, clock: int, procs: seq<Pc>)

  datatype Step =
    | Enter(p: nat, now: int, rotate: bool)
    | Look(p: nat)
    | Settle(p: nat, hash: nat)
    | Write(p: nat)
    | Commit(p: nat, tenantKnown: bool)
    | Crash(p: nat)

  predicate Quiet(pc: Pc) { pc.Idle? || pc.Done? }

  function At(s: State, p: nat, pc: Pc): State
    requires p < |s.procs|
  {
    s.(procs := s.procs[p := pc])
  }

  /** A step a process cannot take where it stands changes nothing. */
  function Next(s: State, spec: Spec, e: Step): State {
    if e.p >= |s.procs| then s
    else
      var pc := s.procs[e.p];
      match e
      case Enter(p, now, rotate) =>
        if Quiet(pc) && now >= s.clock then At(s, p, Entered(now, rotate)).(clock := now) else s
      case Look(p) => if pc.Entered? then At(s, p, Looked(pc.now, pc.rotate, s.file)) else s
      case Settle(p, hash) =>
        if !pc.Looked? then s
        else if KeptRow(pc.held, s.db.rows, spec, pc.rotate, pc.now).Some? then At(s, p, Done(Kept))
        else if hash in s.drawn then s
        else At(s, p, Minted(pc.now, pc.held, hash)).(drawn := s.drawn + {hash})
      case Write(p) => if pc.Minted? then At(s, p, Written(pc.now, pc.held, pc.drawn)).(file := Some(pc.drawn)) else s
      case Commit(p, tenantKnown) =>
        if !pc.Written? then s
        else if !tenantKnown then At(s, p, Idle)
        else
          var q := Request(pc.held, pc.drawn, spec, pc.now);
          At(s, p, Done(if Current(s.db.rows, q).Some? then Rotated else Issued)).(db := Replaced(s.db, q))
      case Crash(p) => if Quiet(pc) then s else At(s, p, Idle)
  }

  function Exec(s: State, spec: Spec, steps: seq<Step>): State {
    if steps == [] then s else Next(Exec(s, spec, steps[..|steps| - 1]), spec, steps[|steps| - 1])
  }

  // ---- what is active over time ------------------------------------------

  lemma {:induction false} FewerLater(rows: seq<Row>, name: string, t: int, later: int)
    requires t <= later
    ensures |ListActive(rows, name, later)| <= |ListActive(rows, name, t)|
  {
    if rows != [] { FewerLater(rows[..|rows| - 1], name, t, later); }
  }

  lemma {:induction false} RevokedNone(rows: seq<Row>, name: string, now: int, t: int)
    requires now <= t
    ensures ListActive(RevokeAll(rows, name, now), name, t) == []
  {
    if rows != [] {
      RevokedNone(rows[..|rows| - 1], name, now, t);
      assert RevokeAll(rows, name, now)[..|rows| - 1] == RevokeAll(rows[..|rows| - 1], name, now);
    }
  }

  /** A committed replacement leaves exactly one active row, its own, from its reading of the clock on. */
  lemma OneAfterReplace(db: Db, q: Request, t: int)
    requires q.now <= t
    ensures ListActive(Replaced(db, q).rows, q.spec.name, t) == [NewRow(db, q)]
    ensures NewRow(db, q).hash == q.minted && NewRow(db, q).expires == None
  {
    hide RevokeAll, Current;
    CurrentIs(db, q);
    RevokedNone(db.rows, q.spec.name, q.now, t);
    var all := RevokeAll(db.rows, q.spec.name, q.now);
    assert (all + [NewRow(db, q)])[..|all|] == all;
  }

  // ---- any interleaving --------------------------------------------------

  predicate TimesPast(s: State) {
    forall p :: 0 <= p < |s.procs| && !Quiet(s.procs[p]) ==> s.procs[p].now <= s.clock
  }

  predicate AtMostOne(s: State, spec: Spec) {
    |ListActive(s.db.rows, spec.name, s.clock)| <= 1
  }

  lemma StepKeepsOne(s: State, spec: Spec, e: Step)
    requires TimesPast(s)
    ensures TimesPast(Next(s, spec, e)) && s.clock <= Next(s, spec, e).clock
    ensures AtMostOne(s, spec) ==> AtMostOne(Next(s, spec, e), spec)
  {
    hide ListActive, Replaced, KeptRow, Current;
    var t := Next(s, spec, e);
    FewerLater(s.db.rows, spec.name, s.clock, if s.clock <= t.clock then t.clock else s.clock);
    if e.p < |s.procs| && e.Commit? && s.procs[e.p].Written? {
      OneAfterReplace(s.db, Request(s.procs[e.p].held, s.procs[e.p].drawn, spec, s.procs[e.p].now), s.clock);
    }
  }

  /** However the steps of the processes interleave and wherever they crash, a name with at most one active row never
      gets two. */
  lemma {:induction false} NeverTwoActive(s: State, spec: Spec, steps: seq<Step>)
    requires TimesPast(s) && AtMostOne(s, spec)
    ensures TimesPast(Exec(s, spec, steps)) && AtMostOne(Exec(s, spec, steps), spec)
  {
    hide Next, TimesPast, AtMostOne;
    if steps != [] {
      NeverTwoActive(s, spec, steps[..|steps| - 1]);
      StepKeepsOne(Exec(s, spec, steps[..|steps| - 1]), spec, steps[|steps| - 1]);
    }
  }

  // ---- the hashes --------------------------------------------------------

  /** What a process is about to put into the table. */
  predicate Pending(pc: Pc) { pc.Minted? || pc.Written? }

  ghost predicate Sound(s: State) {
    && Table(s.db)
    && (forall i :: 0 <= i < |s.db.rows| ==> s.db.rows[i].hash in s.drawn)
    && (s.file.Some? ==> s.file.value in s.drawn)
    && (forall p :: 0 <= p < |s.procs| && Pending(s.procs[p]) ==> s.procs[p].drawn in s.drawn)
    && (forall p, i :: 0 <= p < |s.procs| && Pending(s.procs[p]) && 0 <= i < |s.db.rows| ==> s.procs[p].drawn != s.db.rows[i].hash)
    && (forall p, q :: 0 <= p < q < |s.procs| && Pending(s.procs[p]) && Pending(s.procs[q]) ==> s.procs[p].drawn != s.procs[q].drawn)
  }

  lemma ReplacedRows(db: Db, q: Request)
    ensures var rows := Replaced(db, q).rows;
            && |rows| == |db.rows| + 1
            && (forall i :: 0 <= i < |db.rows| ==> rows[i].hash == db.rows[i].hash && rows[i].id == db.rows[i].id)
            && rows[|db.rows|].hash == q.minted && rows[|db.rows|].id == db.nextId
            && Replaced(db, q).nextId == db.nextId + 1
  {
    hide Current;
  }

  /** A process that puts nothing new into the table, or still what it was about to. */
  lemma PcSound(s: State, p: nat, pc: Pc)
    requires Sound(s) && p < |s.procs|
    requires Pending(pc) ==> Pending(s.procs[p]) && pc.drawn == s.procs[p].drawn
    ensures Sound(At(s, p, pc))
  {
  }

  lemma FileSound(s: State, hash: nat)
    requires Sound(s) && hash in s.drawn
    ensures Sound(s.(file := Some(hash)))
  {
  }

  lemma ClockSound(s: State, clock: int)
    requires Sound(s)
    ensures Sound(s.(clock := clock))
  {
  }

  lemma DrawSound(s: State, p: nat, pc: Pc, hash: nat)
    requires Sound(s) && p < |s.procs| && hash !in s.drawn && pc.Minted? && pc.drawn == hash
    ensures Sound(At(s, p, pc).(drawn := s.drawn + {hash}))
  {
  }

  lemma CommitSound(s: State, p: nat, q: Request, status: Status)
    requires Sound(s) && p < |s.procs| && Pending(s.procs[p]) && q.minted == s.procs[p].drawn
    ensures Sound(At(s, p, Done(status)).(db := Replaced(s.db, q)))
  {
    ReplacedRows(s.db, q);
    hide Replaced;
  }

  lemma InDrawn(s: State, p: nat)
    requires Sound(s) && p < |s.procs| && Pending(s.procs[p])
    ensures s.procs[p].drawn in s.drawn
  {
  }

  lemma StepSound(s: State, spec: Spec, e: Step)
    requires Sound(s)
    ensures Sound(Next(s, spec, e))
  {
    hide Replaced, KeptRow, Current, Sound, At;
    if e.p < |s.procs| {
      var p, pc := e.p, s.procs[e.p];
      match e
      case Enter(_, now, rotate) =>
        PcSound(s, p, Entered(now, rotate));
        ClockSound(At(s, p, Entered(now, rotate)), now);
      case Look(_) => if pc.Entered? { PcSound(s, p, Looked(pc.now, pc.rotate, s.file)); }
      case Settle(_, hash) =>
        PcSound(s, p, Done(Kept));
        if pc.Looked? && hash !in s.drawn { DrawSound(s, p, Minted(pc.now, pc.held, hash), hash); }
      case Write(_) =>
        if pc.Minted? {
          var t := At(s, p, Written(pc.now, pc.held, pc.drawn));
          InDrawn(s, p);
          PcSound(s, p, Written(pc.now, pc.held, pc.drawn));
          AtDrawn(s, p, Written(pc.now, pc.held, pc.drawn));
          FileSound(t, pc.drawn);
        }
      case Commit(_, _) =>
        PcSound(s, p, Idle);
        if pc.Written? {
          var q := Request(pc.held, pc.drawn, spec, pc.now);
          CommitSound(s, p, q, if Current(s.db.rows, q).Some? then Rotated else Issued);
        }
      case Crash(_) => PcSound(s, p, Idle);
    }
  }

  lemma AtDrawn(s: State, p: nat, pc: Pc)
    requires p < |s.procs|
    ensures At(s, p, pc).drawn == s.drawn
  {
  }

  lemma {:induction false} RunSound(s: State, spec: Spec, steps: seq<Step>)
    requires Sound(s)
    ensures Sound(Exec(s, spec, steps))
  {
    hide Next, Sound;
    if steps != [] {
      RunSound(s, spec, steps[..|steps| - 1]);
      StepSound(Exec(s, spec, steps[..|steps| - 1]), spec, steps[|steps| - 1]);
    }
  }

  // ---- one at a time -----------------------------------------------------

  /** Nobody but `p` is inside issue(). */
  predicate Alone(s: State, p: nat) {
    forall k :: 0 <= k < |s.procs| && k != p ==> Quiet(s.procs[k])
  }

  predicate Serial(s: State, spec: Spec, steps: seq<Step>) {
    steps == [] ||
    (Serial(s, spec, steps[..|steps| - 1]) && Alone(Exec(s, spec, steps[..|steps| - 1]), steps[|steps| - 1].p))
  }

  /** What a lone process knows of the file is still true of it. */
  predicate Informed(s: State, pc: Pc) {
    match pc
    case Idle => true
    case Done(_) => true
    case Entered(now, _) => now == s.clock
    case Looked(now, _, held) => now == s.clock && held == s.file
    case Minted(now, held, _) => now == s.clock && held == s.file
    case Written(now, _, drawn) => now == s.clock && s.file == Some(drawn)
  }

  predicate AllInformed(s: State) {
    forall p :: 0 <= p < |s.procs| ==> Informed(s, s.procs[p])
  }

  lemma StepInformed(s: State, spec: Spec, e: Step)
    requires AllInformed(s) && Alone(s, e.p)
    ensures AllInformed(Next(s, spec, e))
  {
    hide Replaced, KeptRow, Current;
  }

  lemma {:induction false} RunInformed(s: State, spec: Spec, steps: seq<Step>)
    requires AllInformed(s) && Serial(s, spec, steps)
    ensures AllInformed(Exec(s, spec, steps))
  {
    hide Next, AllInformed, Alone;
    if steps != [] {
      RunInformed(s, spec, steps[..|steps| - 1]);
      StepInformed(Exec(s, spec, steps[..|steps| - 1]), spec, steps[|steps| - 1]);
    }
  }

  /** The file holds the secret of the one active row of the name. */
  ghost predicate Agreed(s: State, spec: Spec, t: int) {
    var list := ListActive(s.db.rows, spec.name, t);
    |list| == 1 && s.file == Some(list[0].hash)
  }

  predicate Completes(s: State, spec: Spec, e: Step) {
    e.p < |s.procs| && !s.procs[e.p].Done? && Next(s, spec, e).procs[e.p].Done?
  }

  ghost predicate AllQuiet(s: State) {
    forall p :: 0 <= p < |s.procs| ==> Quiet(s.procs[p])
  }

  /** The end of a call made alone: after a mint file and row agree from then on, whatever was active before; after a
      `kept` nothing was written and they agree if at most one row was active. */
  lemma CompletionStep(s: State, spec: Spec, e: Step, t: int)
    requires AllInformed(s) && Alone(s, e.p) && Completes(s, spec, e) && t >= s.clock
    ensures var next := Next(s, spec, e);
            && (next.procs[e.p].status != Kept ==> Agreed(next, spec, t))
            && (next.procs[e.p].status == Kept ==> next.file == s.file && next.db == s.db)
            && (next.procs[e.p].status == Kept && AtMostOne(s, spec) ==> Agreed(next, spec, s.clock))
  {
    hide Replaced, KeptRow, Current, ListActive;
    var pc := s.procs[e.p];
    assert Informed(s, pc);
    if e.Commit? && pc.Written? {
      OneAfterReplace(s.db, Request(pc.held, pc.drawn, spec, pc.now), t);
    } else {
      KeptIs(pc.held, s.db.rows, spec, pc.rotate, pc.now);
      var list := ListActive(s.db.rows, spec.name, s.clock);
      FoundIs(list, pc.held);
    }
  }

  /** Serialized runs with any number of crashes: starting with at most one active row, whenever a call completes there
      is exactly one and its hash is the file's. */
  lemma CompletionAgrees(s: State, spec: Spec, steps: seq<Step>, e: Step)
    requires AllQuiet(s) && AtMostOne(s, spec)
    requires Serial(s, spec, steps + [e]) && Completes(Exec(s, spec, steps), spec, e)
    ensures Agreed(Exec(s, spec, steps + [e]), spec, Exec(s, spec, steps + [e]).clock)
  {
    assert (steps + [e])[..|steps|] == steps;
    QuietStarts(s);
    hide Next, TimesPast, AtMostOne, AllInformed, Alone, Agreed, Completes;
    NeverTwoActive(s, spec, steps);
    RunInformed(s, spec, steps);
    var u := Exec(s, spec, steps);
    CompletionStep(u, spec, e, u.clock);
    CompletesNow(u, spec, e);
  }

  lemma QuietStarts(s: State)
    requires AllQuiet(s)
    ensures TimesPast(s) && AllInformed(s)
  {
  }

  lemma CompletesNow(s: State, spec: Spec, e: Step)
    requires Completes(s, spec, e)
    ensures Next(s, spec, e).clock == s.clock
  {
    hide Replaced, KeptRow, Current;
  }

  // ---- whole calls -------------------------------------------------------

  function Asking(p: nat, now: int, rotate: bool, hash: nat): seq<Step> {
    [Enter(p, now, rotate), Look(p), Settle(p, hash)]
  }

  function Minting(p: nat, tenantKnown: bool): seq<Step> {
    [Write(p), Commit(p, tenantKnown)]
  }

  lemma ExecOne(s: State, spec: Spec, steps: seq<Step>, e: Step)
    ensures Exec(s, spec, steps + [e]) == Next(Exec(s, spec, steps), spec, e)
  {
    hide Next;
    assert (steps + [e])[..|steps|] == steps;
  }

  lemma ExecAsking(s: State, spec: Spec, p: nat, now: int, rotate: bool, hash: nat)
    ensures Exec(s, spec, Asking(p, now, rotate, hash)) ==
            Next(Next(Next(s, spec, Enter(p, now, rotate)), spec, Look(p)), spec, Settle(p, hash))
  {
    hide *;
    AskingIs(p, now, rotate, hash);
    ExecNone(s, spec);
    ExecOne(s, spec, [], Enter(p, now, rotate));
    ExecOne(s, spec, [] + [Enter(p, now, rotate)], Look(p));
    ExecOne(s, spec, [] + [Enter(p, now, rotate)] + [Look(p)], Settle(p, hash));
    assert [] + [Enter(p, now, rotate)] + [Look(p)] + [Settle(p, hash)] == [Enter(p, now, rotate), Look(p), Settle(p, hash)];
  }

  lemma AskingIs(p: nat, now: int, rotate: bool, hash: nat)
    ensures Asking(p, now, rotate, hash) == [Enter(p, now, rotate), Look(p), Settle(p, hash)]
  {
  }

  lemma ExecNone(s: State, spec: Spec)
    ensures Exec(s, spec, []) == s
  {
  }

  lemma ExecPair(s: State, spec: Spec, d: Step, e: Step)
    ensures Exec(s, spec, [d, e]) == Next(Next(s, spec, d), spec, e)
  {
    hide Next;
    ExecOne(s, spec, [], d);
    ExecOne(s, spec, [] + [d], e);
    assert [] + [d] + [e] == [d, e];
  }

  /** Where file and active row agree, the next unrotated call keeps the token and changes neither. */
  lemma NextIsKept(s: State, spec: Spec, p: nat, now: int, hash: nat)
    requires p < |s.procs| && Quiet(s.procs[p]) && now >= s.clock && Agreed(s, spec, now)
    ensures Exec(s, spec, Asking(p, now, false, hash)) == s.(clock := now, procs := s.procs[p := Done(Kept)])
  {
    ExecAsking(s, spec, p, now, false, hash);
    hide Exec, ListActive, Asking;
    KeptIs(s.file, s.db.rows, spec, false, now);
  }

  /** Agreement lasts as long as the row does: for good when it has no expiry, as every minted row. */
  lemma AgreedLasts(s: State, spec: Spec, t: int, later: int)
    requires Agreed(s, spec, t) && t <= later
    ensures var r := ListActive(s.db.rows, spec.name, t)[0];
            Agreed(s, spec, later) <==> r.expires.None? || r.expires.value > later
  {
    hide ListActive;
    var a, b := ListActive(s.db.rows, spec.name, t), ListActive(s.db.rows, spec.name, later);
    FewerLater(s.db.rows, spec.name, t, later);
    ListedAre(s.db.rows, spec.name, t);
    ListedAre(s.db.rows, spec.name, later);
    assert a[0] in a;
    assert b == [] || b[0] in b;
    assert b == [] || b[0] in a;
  }

  /** A call that mints, made alone and not failing, repairs whatever a crash or an overlap left. */
  lemma ReissueRepairs(s: State, spec: Spec, p: nat, now: int, rotate: bool, hash: nat, t: int)
    requires p < |s.procs| && Quiet(s.procs[p]) && s.clock <= now <= t && hash !in s.drawn
    requires KeptRow(s.file, s.db.rows, spec, rotate, now).None?
    ensures var done := Exec(Exec(s, spec, Asking(p, now, rotate, hash)), spec, Minting(p, true));
            && Agreed(done, spec, t) && done.file == Some(hash)
            && done.db == Replaced(s.db, Request(s.file, hash, spec, now))
  {
    ExecAsking(s, spec, p, now, rotate, hash);
    var u := Exec(s, spec, Asking(p, now, rotate, hash));
    ExecPair(u, spec, Write(p), Commit(p, true));
    hide Exec, ListActive, Asking, Replaced, Current, KeptRow;
    assert u.procs[p] == Pc.Minted(now, s.file, hash) && u.file == s.file && u.db == s.db;
    OneAfterReplace(s.db, Request(s.file, hash, spec, now), t);
  }

  // ---- crashes -----------------------------------------------------------

  /** A process that dies (or whose transaction is refused) after writing the file leaves a file no row knows. If a row
      was active it stays active, and no file holds its secret any more: until the next call mints, a valid token exists
      that nobody can read back. */
  lemma CrashStrands(s: State, spec: Spec, p: nat, e: Step)
    requires Sound(s) && AllInformed(s) && Alone(s, p) && p < |s.procs| && s.procs[p].Written?
    requires e == Crash(p) || e == Commit(p, false)
    ensures var next := Next(s, spec, e);
            && AllQuiet(next) && next.db == s.db
            && CheckSpec(next.file, next.db.rows, spec, next.clock) == UnknownHash
            && (forall r :: r in ListActive(next.db.rows, spec.name, next.clock) ==> next.file != Some(r.hash))
            && KeptRow(next.file, next.db.rows, spec, false, next.clock).None?
  {
    hide ListActive, Replaced, Current;
    var pc, next := s.procs[p], Next(s, spec, e);
    assert Informed(s, pc);
    FoundIs(s.db.rows, s.file);
    var list := ListActive(s.db.rows, spec.name, s.clock);
    ListedAre(s.db.rows, spec.name, s.clock);
    FoundIs(list, s.file);
    forall r | r in s.db.rows ensures r.hash != pc.drawn {
      var i :| 0 <= i < |s.db.rows| && s.db.rows[i] == r;
    }
  }

  /** The steps of one call up to the file write. */
  function Call(p: nat, now: int, rotate: bool, hash: nat): seq<Step> {
    [Enter(p, now, rotate), Look(p), Settle(p, hash), Write(p)]
  }

  /** The state after the first `n` steps of a call made from `s`. */
  function Begun(s: State, spec: Spec, p: nat, now: int, rotate: bool, hash: nat, n: nat): State
    requires n <= 4
  {
    Exec(s, spec, Call(p, now, rotate, hash)[..n])
  }

  lemma BegunNext(s: State, spec: Spec, p: nat, now: int, rotate: bool, hash: nat, n: nat)
    requires n < 4
    ensures Begun(s, spec, p, now, rotate, hash, n + 1) ==
            Next(Begun(s, spec, p, now, rotate, hash, n), spec, Call(p, now, rotate, hash)[n])
    ensures Begun(s, spec, p, now, rotate, hash, 0) == s
  {
    hide Next, Call;
    CallLong(p, now, rotate, hash);
    var steps := Call(p, now, rotate, hash);
    assert steps[..n + 1][..n] == steps[..n];
  }

  lemma CallLong(p: nat, now: int, rotate: bool, hash: nat)
    ensures |Call(p, now, rotate, hash)| == 4
  {
  }

  /** Where a lone call stands after each of its steps. */
  lemma CallStands(s: State, spec: Spec, p: nat, now: int, rotate: bool, hash: nat, n: nat)
    requires p < |s.procs| && Quiet(s.procs[p]) && s.clock <= now && hash !in s.drawn && n <= 4
    ensures var u := Begun(s, spec, p, now, rotate, hash, n);
            var mints := KeptRow(s.file, s.db.rows, spec, rotate, now).None?;
            && |u.procs| == |s.procs| && u.db == s.db && u.clock == (if n == 0 then s.clock else now)
            && u.file == (if n == 4 && mints then Some(hash) else s.file)
            && (n < 3 ==> hash !in u.drawn)
            && u.procs[p] == (if n == 0 then s.procs[p] else if n == 1 then Entered(now, rotate)
                              else if n == 2 then Looked(now, rotate, s.file) else if !mints then Done(Kept)
                              else if n == 3 then Minted(now, s.file, hash) else Written(now, s.file, hash))
    decreases n
  {
    hide Exec, Begun, KeptRow, Replaced, Current, Quiet;
    BegunNext(s, spec, p, now, rotate, hash, if n > 0 then n - 1 else 0);
    if n > 0 {
      CallStands(s, spec, p, now, rotate, hash, n - 1);
      if n == 1 { QuietEnters(s, spec, p, now, rotate); }
    }
  }

  lemma QuietEnters(s: State, spec: Spec, p: nat, now: int, rotate: bool)
    requires p < |s.procs| && Quiet(s.procs[p]) && s.clock <= now
    ensures Next(s, spec, Enter(p, now, rotate)) == At(s, p, Entered(now, rotate)).(clock := now)
  {
  }

  /** An active row of the name whose secret no file holds. */
  ghost predicate Unheld(s: State, spec: Spec, t: int) {
    exists r :: r in ListActive(s.db.rows, spec.name, t) && s.file != Some(r.hash)
  }

  /** The exact condition: where every active row is held, a call made alone that dies after `n` of its steps leaves file and
      rows as they were, but after the write of the file; and it leaves an active row unheld exactly if it dies there, having
      minted, with a row active. */
  lemma CrashStrandsIff(s: State, spec: Spec, p: nat, now: int, rotate: bool, hash: nat, n: nat)
    requires Sound(s) && p < |s.procs| && Quiet(s.procs[p]) && s.clock <= now && hash !in s.drawn && n <= 4
    requires !Unheld(s, spec, now)
    ensures var next := Next(Begun(s, spec, p, now, rotate, hash, n), spec, Crash(p));
            var mints := KeptRow(s.file, s.db.rows, spec, rotate, now).None?;
            && next.db == s.db && (next.file != s.file <==> n == 4 && mints)
            && (Unheld(next, spec, now) <==> n == 4 && mints && ListActive(s.db.rows, spec.name, now) != [])
  {
    CallStands(s, spec, p, now, rotate, hash, n);
    CrashKeeps(Begun(s, spec, p, now, rotate, hash, n), spec, p);
    ListedAre(s.db.rows, spec.name, now);
    Drawn(s);
    hide Next, Begun, ListActive, KeptRow, Sound, Quiet;
    var list := ListActive(s.db.rows, spec.name, now);
    assert list == [] || list[0] in list;
  }

  lemma CrashKeeps(s: State, spec: Spec, p: nat)
    ensures Next(s, spec, Crash(p)).file == s.file && Next(s, spec, Crash(p)).db == s.db
  {
  }

  lemma Drawn(s: State)
    requires Sound(s)
    ensures forall r :: r in s.db.rows ==> r.hash in s.drawn
    ensures s.file.Some? ==> s.file.value in s.drawn
  {
    forall r | r in s.db.rows ensures r.hash in s.drawn {
      var i :| 0 <= i < |s.db.rows| && s.db.rows[i] == r;
    }
  }

  // ---- the check ---------------------------------------------------------

  lemma {:induction false} FindFirst(rows: seq<Row>, r: Row)
    requires r in rows && forall x :: x in rows && x.hash == r.hash ==> x == r
    ensures Find(rows, Some(r.hash)) == Some(r)
  {
    if rows[0].hash != r.hash {
      assert rows == [rows[0]] + rows[1..];
      FindFirst(rows[1..], r);
    } else {
      assert rows[0] in rows;
    }
  }

  lemma UniqueHash(db: Db, r: Row)
    requires Table(db) && r in db.rows
    ensures forall x :: x in db.rows && x.hash == r.hash ==> x == r
  {
    forall x | x in db.rows && x.hash == r.hash ensures x == r {
      var i :| 0 <= i < |db.rows| && db.rows[i] == x;
      var j :| 0 <= j < |db.rows| && db.rows[j] == r;
      assert i == j;
    }
  }

  /** Where file and active row agree the check can only fault the row's role or agent. */
  lemma CheckWhenAgreed(s: State, spec: Spec, t: int)
    requires Table(s.db) && Agreed(s, spec, t)
    ensures var r := ListActive(s.db.rows, spec.name, t)[0];
            CheckSpec(s.file, s.db.rows, spec, t) == if r.role == spec.role && r.agent == spec.agent then Ok else WrongRole
  {
    hide Find, ListActive;
    var list := ListActive(s.db.rows, spec.name, t);
    ListedAre(s.db.rows, spec.name, t);
    assert list[0] in list;
    UniqueHash(s.db, list[0]);
    FindFirst(s.db.rows, list[0]);
  }

  /** The check answers `ok` exactly when the file holds the sole active row of the name and that row carries the
      expected role and agent. No issuing discipline is assumed. */
  lemma CheckOkIff(s: State, spec: Spec, t: int)
    requires Table(s.db)
    ensures CheckSpec(s.file, s.db.rows, spec, t) == Ok <==>
            Agreed(s, spec, t) &&
            ListActive(s.db.rows, spec.name, t)[0].role == spec.role && ListActive(s.db.rows, spec.name, t)[0].agent == spec.agent
  {
    hide Find, ListActive;
    var list, found := ListActive(s.db.rows, spec.name, t), Find(s.db.rows, s.file);
    FoundIs(s.db.rows, s.file);
    ListedAre(s.db.rows, spec.name, t);
    if CheckSpec(s.file, s.db.rows, spec, t) == Ok {
      assert found.value in list;
      assert list == [found.value];
    }
    if Agreed(s, spec, t) {
      CheckWhenAgreed(s, spec, t);
    }
  }

  /** Rotating copies the old row's role and agent, keeping keeps them: no call cures a wrong role of the row the file holds. */
  lemma WrongRoleStays(s: State, spec: Spec, p: nat, now: int, rotate: bool, hash: nat)
    requires Sound(s) && p < |s.procs| && Quiet(s.procs[p]) && s.clock <= now && hash !in s.drawn
    requires Agreed(s, spec, now) && CheckSpec(s.file, s.db.rows, spec, now) == WrongRole
    ensures var asked := Exec(s, spec, Asking(p, now, rotate, hash));
            var done := Exec(asked, spec, Minting(p, true));
            && CheckSpec(done.file, done.db.rows, spec, now) == WrongRole
            && |done.procs| == |s.procs| && done.procs[p] == Done(if rotate then Rotated else Kept)
  {
    var r := ListActive(s.db.rows, spec.name, now)[0];
    CheckWhenAgreed(s, spec, now);
    ExecAsking(s, spec, p, now, rotate, hash);
    var u := Exec(s, spec, Asking(p, now, rotate, hash));
    ExecPair(u, spec, Write(p), Commit(p, true));
    var q := Request(s.file, hash, spec, now);
    CurrentIsSole(s, q);
    hide Exec, Asking, Minting, CheckSpec, ListActive, Replaced, Current, Sound, Table;
    KeptIs(s.file, s.db.rows, spec, rotate, now);
    if rotate {
      var v := Next(Next(u, spec, Write(p)), spec, Commit(p, true));
      OneAfterReplace(s.db, q, now);
      StepsSound(s, spec, p, now, rotate, hash);
      SoundTable(v);
      CheckWhenAgreed(v, spec, now);
    }
  }

  /** The state after a whole call made from `s`. */
  function Called(s: State, spec: Spec, p: nat, now: int, rotate: bool, hash: nat): State {
    Exec(Exec(s, spec, Asking(p, now, rotate, hash)), spec, Minting(p, true))
  }

  /** The active row of the name that the file holds. */
  function HeldRow(s: State, spec: Spec, now: int): Option<Row> {
    Find(ListActive(s.db.rows, spec.name, now), s.file)
  }

  /** Exactly when a call made alone and not failing leaves a token the check accepts: when the file held no active row, or
      one with the right role and agent, which is the only active one unless the call rotates. */
  lemma CallCuresIff(s: State, spec: Spec, p: nat, now: int, rotate: bool, hash: nat)
    requires Sound(s) && p < |s.procs| && Quiet(s.procs[p]) && s.clock <= now && hash !in s.drawn
    ensures var done, row := Called(s, spec, p, now, rotate, hash), HeldRow(s, spec, now);
            CheckSpec(done.file, done.db.rows, spec, now) == Ok <==>
            row.None? || (row.value.role == spec.role && row.value.agent == spec.agent &&
                          (rotate || |ListActive(s.db.rows, spec.name, now)| == 1))
  {
    if KeptRow(s.file, s.db.rows, spec, rotate, now).Some? {
      KeptCures(s, spec, p, now, rotate, hash);
    } else {
      MintCures(s, spec, p, now, rotate, hash);
    }
  }

  lemma MintCures(s: State, spec: Spec, p: nat, now: int, rotate: bool, hash: nat)
    requires Sound(s) && p < |s.procs| && Quiet(s.procs[p]) && s.clock <= now && hash !in s.drawn
    requires KeptRow(s.file, s.db.rows, spec, rotate, now).None?
    ensures var done, row := Called(s, spec, p, now, rotate, hash), HeldRow(s, spec, now);
            CheckSpec(done.file, done.db.rows, spec, now) == Ok <==>
            row.None? || (row.value.role == spec.role && row.value.agent == spec.agent)
  {
    var done, q := Called(s, spec, p, now, rotate, hash), Request(s.file, hash, spec, now);
    CalledIs(s, spec, p, now, rotate, hash);
    CurrentIs(s.db, q);
    hide Exec, Asking, Minting, CheckSpec, ListActive, Replaced, Sound, Table, Find, Called;
    ReissueRepairs(s, spec, p, now, rotate, hash, now);
    RunSound(s, spec, Asking(p, now, rotate, hash));
    RunSound(Exec(s, spec, Asking(p, now, rotate, hash)), spec, Minting(p, true));
    SoundTable(done);
    CheckWhenAgreed(done, spec, now);
    OneAfterReplace(s.db, q, now);
  }

  lemma CalledIs(s: State, spec: Spec, p: nat, now: int, rotate: bool, hash: nat)
    ensures Called(s, spec, p, now, rotate, hash) == Exec(Exec(s, spec, Asking(p, now, rotate, hash)), spec, Minting(p, true))
  {
  }

  lemma KeptCures(s: State, spec: Spec, p: nat, now: int, rotate: bool, hash: nat)
    requires Sound(s) && p < |s.procs| && Quiet(s.procs[p]) && s.clock <= now
    requires KeptRow(s.file, s.db.rows, spec, rotate, now).Some?
    ensures var done, row := Called(s, spec, p, now, rotate, hash), HeldRow(s, spec, now);
            CheckSpec(done.file, done.db.rows, spec, now) == Ok <==>
            row.Some? && row.value.role == spec.role && row.value.agent == spec.agent && |ListActive(s.db.rows, spec.name, now)| == 1
  {
    ExecAsking(s, spec, p, now, rotate, hash);
    var u := Exec(s, spec, Asking(p, now, rotate, hash));
    ExecPair(u, spec, Write(p), Commit(p, true));
    hide Exec, Asking, CheckSpec, ListActive, Replaced, Sound, Table, Find, Agreed;
    SoundTable(s);
    CheckOkIff(s, spec, now);
    HeldSole(s, spec, now);
  }

  lemma HeldSole(s: State, spec: Spec, now: int)
    requires HeldRow(s, spec, now).Some? && Table(s.db)
    ensures var list := ListActive(s.db.rows, spec.name, now);
            && (Agreed(s, spec, now) <==> |list| == 1)
            && (|list| == 1 ==> list[0] == HeldRow(s, spec, now).value)
  {
    hide ListActive;
    FoundIs(ListActive(s.db.rows, spec.name, now), s.file);
  }

  lemma CurrentIsSole(s: State, q: Request)
    requires Agreed(s, q.spec, q.now) && q.held == s.file
    ensures var r := ListActive(s.db.rows, q.spec.name, q.now)[0];
            Current(s.db.rows, q) == Some(r) && NewRow(s.db, q).role == r.role && NewRow(s.db, q).agent == r.agent
  {
    hide ListActive;
  }

  lemma SoundTable(s: State)
    requires Sound(s)
    ensures Table(s.db)
  {
  }

  lemma StepsSound(s: State, spec: Spec, p: nat, now: int, rotate: bool, hash: nat)
    requires Sound(s)
    ensures Sound(Next(Next(Exec(s, spec, Asking(p, now, rotate, hash)), spec, Write(p)), spec, Commit(p, true)))
  {
    hide Next, Sound, Exec;
    var u := Exec(s, spec, Asking(p, now, rotate, hash));
    RunSound(s, spec, Asking(p, now, rotate, hash));
    StepSound(u, spec, Write(p));
    StepSound(Next(u, spec, Write(p)), spec, Commit(p, true));
  }

  // ---- two processes -----------------------------------------------------

  /** In any interleaving, when a call commits, file and active row agree exactly if nobody wrote the file after it. */
  lemma CommitAgreesIff(s: State, spec: Spec, p: nat, t: int)
    requires TimesPast(s) && p < |s.procs| && s.procs[p].Written? && t >= s.clock
    ensures Agreed(Next(s, spec, Commit(p, true)), spec, t) <==> s.file == Some(s.procs[p].drawn)
  {
    hide ListActive, Replaced, Current;
    var pc := s.procs[p];
    OneAfterReplace(s.db, Request(pc.held, pc.drawn, spec, pc.now), t);
  }

  /** Two overlapping processes can both complete and leave a file whose hash is not the active row's. */
  lemma OverlapDisagrees(now: int)
    ensures var start := State(None, Db([], 0), {}, now, [Idle, Idle]);
            var asked := Exec(Exec(start, OPERATOR, Asking(0, now, false, 1)), OPERATOR, Asking(1, now, false, 2));
            var done := Exec(Exec(asked, OPERATOR, [Write(0), Write(1)]), OPERATOR, [Commit(1, true), Commit(0, true)]);
            && done.procs == [Done(Issued), Done(Issued)]
            && done.file == Some(2) && (exists r :: ListActive(done.db.rows, OPERATOR.name, now) == [r] && r.hash == 1)
  {
    hide *;
    var start := State(None, Db([], 0), {}, now, [Idle, Idle]);
    var one := start.(drawn := {1}, procs := [Minted(now, None, 1), Idle]);
    var two := start.(drawn := {1, 2}, procs := [Minted(now, None, 1), Minted(now, None, 2)]);
    var written := two.(file := Some(2), procs := [Written(now, None, 1), Written(now, None, 2)]);
    AskMints(start, OPERATOR, 0, now, 1);
    assert start.procs[0 := Minted(now, None, 1)] == one.procs && start.drawn + {1} == one.drawn;
    AskMints(one, OPERATOR, 1, now, 2);
    assert one.procs[1 := Minted(now, None, 2)] == two.procs && one.drawn + {2} == two.drawn;
    WritesTwice(two, OPERATOR, now);
    CommitsTwice(written, OPERATOR, now);
  }

  lemma AskMints(s: State, spec: Spec, p: nat, now: int, hash: nat)
    requires p < |s.procs| && s.procs[p].Idle? && s.file.None? && s.clock == now && hash !in s.drawn
    ensures Exec(s, spec, Asking(p, now, false, hash)) ==
            s.(drawn := s.drawn + {hash}, procs := s.procs[p := Minted(now, None, hash)])
  {
    ExecAsking(s, spec, p, now, false, hash);
    hide Exec, Asking, ListActive;
  }

  lemma WritesTwice(s: State, spec: Spec, now: int)
    requires s.procs == [Minted(now, None, 1), Minted(now, None, 2)]
    ensures Exec(s, spec, [Write(0), Write(1)]) == s.(file := Some(2), procs := [Written(now, None, 1), Written(now, None, 2)])
  {
    ExecPair(s, spec, Write(0), Write(1));
    hide Exec;
  }

  lemma CommitsTwice(s: State, spec: Spec, now: int)
    requires s.procs == [Written(now, None, 1), Written(now, None, 2)]
    ensures var done := Exec(s, spec, [Commit(1, true), Commit(0, true)]);
            && done.procs == [Done(Issued), Done(Issued)] && done.file == s.file
            && exists r :: ListActive(done.db.rows, spec.name, now) == [r] && r.hash == 1
  {
    ExecPair(s, spec, Commit(1, true), Commit(0, true));
    var q, r := Request(None, 2, spec, now), Request(None, 1, spec, now);
    OneAfterReplace(Replaced(s.db, q), r, now);
    NothingHeld(s.db, q);
    NothingHeld(Replaced(s.db, q), r);
    hide Exec, Replaced, Current, ListActive;
  }

  lemma NothingHeld(db: Db, q: Request)
    requires q.held.None?
    ensures Current(db.rows, q).None?
  {
    hide ListActive;
  }
}
