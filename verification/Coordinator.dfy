/** The backfill coordinator of src/channel-coordinator.ts: a state machine that polls Telegram only while the native
    poller is down. One iteration of its loop is one step against an environment that decides what the probes see, what
    Telegram answers and when, and which store calls throw. */
module Coordinator {
  import opened Options

  const TICK_MS: int := 5000
  const DOWN_DEBOUNCE: nat := 2
  const NATIVE_409_COOLDOWN_MS: int := 90000
  const RECONCILE_LIMIT: nat := 50

  datatype Phase = Idle | Backfilling

  /** An update as fetched; `mapped` says whether it is of a kind that is handled. */
  datatype Update = Update(id: int, mapped: bool)

  /** The router gave up on the message, or it was deleted for its age, whatever its status. */
  datatype Loss = Failed | Pruned

  /** A message is waiting, delivered or done; or it is lost. The model keeps a place for messages that were deleted. */
  datatype MessageStatus = InFlight | Lost(why: Loss)

  /** A message queued for the main agent. */
  datatype Message = Message(updateId: int, byBatch: bool, status: MessageStatus)

  /** incoming_events (update id to the message it was handed off with, in order of insertion), agent_messages and
      poll_offset. */
  datatype Store = Store(rows: map<int, Option<nat>>, order: seq<int>, messages: seq<Message>, offset: int)

  datatype Core = Core(
    phase: Phase, downStreak: nat, nativeUpUntil: int, transientAttempt: nat, stopped: bool, store: Store)

  datatype ErrorKind = Fatal | Conflict | RateLimit | Transient

  datatype Seed = HighWater(hw: Option<int>) | SeedError(kind: ErrorKind)

  datatype Poll = Updates(updates: seq<Update>) | PollError(kind: ErrorKind)

  /** What the environment does during one iteration. Clock readings: when the cooldown is checked, when the answer
      arrives, when it is handled, and when the iteration ends. */
  datatype Env = Env(
    lost: map<nat, Loss>, queryOk: bool, replayCreateFails: set<int>, replayMarkFails: set<int>,
    down: bool, readAt: int, answerAt: int, handledAt: int, endAt: int,
    seed: Seed, poll: Poll, stillDown: bool, insertFails: set<int>, createFails: set<int>, markFails: set<int>)

  datatype Event =
    | Stopped | Watched | Seeded(hw: Option<int>) | SeedConflict | SeedFailed
    | Yielded | PollConflict | PollFailed | NothingNew | Discarded | Processed(updates: seq<Update>)

  predicate InCooldown(upUntil: int, now: int) { now < upUntil }

  // ---- the store ---------------------------------------------------------

  predicate NeedsHandoff(s: Store, id: int) {
    id in s.rows &&
    (s.rows[id].None? || s.rows[id].value >= |s.messages| || s.messages[s.rows[id].value].status.Lost?)
  }

  /** The ids of the rows that need a handoff, oldest first. */
  function Needing(s: Store, ids: seq<int>): seq<int> {
    if ids == [] then []
    else (if NeedsHandoff(s, ids[0]) then [ids[0]] else []) + Needing(s, ids[1..])
  }

  /** createHandoffMessage, and then markEventDelivered: when the mark throws, the message stays queued and the row does not
      point at it. */
  function HandOff(s: Store, id: int, byBatch: bool, markOk: bool): Store {
    s.(messages := s.messages + [Message(id, byBatch, InFlight)], rows := if markOk then s.rows[id := Some(|s.messages|)] else s.rows)
  }

  function Replay(s: Store, ids: seq<int>, env: Env): Store
    decreases |ids|
  {
    if ids == [] then s
    else
      var before, id := Replay(s, ids[..|ids| - 1], env), ids[|ids| - 1];
      if id in env.replayCreateFails then before else HandOff(before, id, false, id !in env.replayMarkFails)
  }

  /** Messages that were lost since the last iteration. */
  function Lose(s: Store, lost: map<nat, Loss>): Store {
    s.(messages := seq(|s.messages|, k requires 0 <= k < |s.messages| =>
         if k in lost then s.messages[k].(status := Lost(lost[k])) else s.messages[k]))
  }

  function FirstNeeding(s: Store): seq<int> {
    var all := Needing(s, s.order);
    if |all| <= RECONCILE_LIMIT then all else all[..RECONCILE_LIMIT]
  }

  function Reconciled(s: Store, env: Env): Store {
    if env.queryOk then Replay(s, FirstNeeding(s), env) else s
  }

  /** One update of a batch: insert if absent, and hand off what was inserted. */
  function Take(s: Store, u: Update, env: Env): Store {
    if !u.mapped || u.id in env.insertFails || u.id in s.rows then s
    else
      var inserted := s.(rows := s.rows[u.id := None], order := s.order + [u.id]);
      if u.id in env.createFails then inserted else HandOff(inserted, u.id, true, u.id !in env.markFails)
  }

  function TakeAll(s: Store, updates: seq<Update>, env: Env): Store
    decreases |updates|
  {
    if updates == [] then s else Take(TakeAll(s, updates[..|updates| - 1], env), updates[|updates| - 1], env)
  }

  function MaxId(updates: seq<Update>): (m: Option<int>)
    ensures updates == [] <==> m.None?
    ensures m.Some? ==> forall k :: 0 <= k < |updates| ==> updates[k].id <= m.value
    ensures m.Some? ==> exists k :: 0 <= k < |updates| && updates[k].id == m.value
    decreases |updates|
  {
    if updates == [] then None
    else
      var n := |updates| - 1;
      var before := MaxId(updates[..n]);
      if before.None? || updates[n].id > before.value then Some(updates[n].id) else before
  }

  // ---- one iteration -----------------------------------------------------

  function StepIdle(c: Core, env: Env): (Core, Event) {
    var down := env.down && !InCooldown(c.nativeUpUntil, env.readAt);
    var watched := c.(downStreak := if down then c.downStreak + 1 else 0);
    if watched.downStreak < DOWN_DEBOUNCE then (watched, Watched)
    else match env.seed
      case HighWater(hw) =>
        var s := if hw.Some? then c.store.(offset := hw.value) else c.store;
        (watched.(phase := Backfilling, transientAttempt := 0, store := s), Seeded(hw))
      case SeedError(Fatal) => (watched.(stopped := true), Stopped)
      case SeedError(Conflict) =>
        (watched.(nativeUpUntil := env.handledAt + NATIVE_409_COOLDOWN_MS, downStreak := 0), SeedConflict)
      case SeedError(_) => (watched, SeedFailed)
  }

  function StepBackfilling(c: Core, env: Env): (Core, Event) {
    if !env.down then (c.(phase := Idle, downStreak := 0), Yielded)
    else match env.poll
      case PollError(Fatal) => (c.(stopped := true), Stopped)
      case PollError(Conflict) =>
        (c.(nativeUpUntil := env.handledAt + NATIVE_409_COOLDOWN_MS, phase := Idle, downStreak := 0), PollConflict)
      case PollError(RateLimit) => (c, PollFailed)
      case PollError(Transient) => (c.(transientAttempt := c.transientAttempt + 1), PollFailed)
      case Updates(updates) =>
        var ok := c.(transientAttempt := 0);
        if updates == [] then (ok, NothingNew)
        else if !env.stillDown then (ok.(phase := Idle, downStreak := 0), Discarded)
        else
          var s := TakeAll(c.store, updates, env);
          (ok.(store := s.(offset := MaxId(updates).value)), Processed(updates))
  }

  /** What the iteration starts from: messages may have been lost, and the replay runs first. */
  function Awake(c: Core, env: Env): Core {
    c.(store := Reconciled(Lose(c.store, env.lost), env))
  }

  function Step(c: Core, env: Env): (Core, Event) {
    if c.stopped then (c, Stopped)
    else if c.phase.Idle? then StepIdle(Awake(c, env), env)
    else StepBackfilling(Awake(c, env), env)
  }

  // ---- the store keeps its books -----------------------------------------

  ghost predicate Distinct(ids: seq<int>) {
    forall a, b :: 0 <= a < b < |ids| ==> ids[a] != ids[b]
  }

  /** Every message belongs to a row, every row points at its own message, and no update was handed off by two batches. */
  ghost predicate Books(s: Store) {
    && Distinct(s.order)
    && (forall id :: id in s.order <==> id in s.rows)
    && (forall id :: id in s.rows && s.rows[id].Some? ==>
          s.rows[id].value < |s.messages| && s.messages[s.rows[id].value].updateId == id)
    && (forall k :: 0 <= k < |s.messages| ==> s.messages[k].updateId in s.rows)
    && NoDoubleBatch(s.messages)
  }

  ghost predicate NoDoubleBatch(ms: seq<Message>) {
    forall a, b :: 0 <= a < b < |ms| && ms[a].byBatch && ms[b].byBatch ==> ms[a].updateId != ms[b].updateId
  }

  /** Rows are never dropped, message contents never changed: only added. */
  ghost predicate Grows(s: Store, t: Store) {
    && s.rows.Keys <= t.rows.Keys
    && |s.messages| <= |t.messages|
    && forall k :: 0 <= k < |s.messages| ==>
         t.messages[k].updateId == s.messages[k].updateId && t.messages[k].byBatch == s.messages[k].byBatch
  }

  lemma GrowsTwice(s: Store, t: Store, u: Store)
    requires Grows(s, t) && Grows(t, u)
    ensures Grows(s, u)
  {
  }

  lemma HandOffKeeps(s: Store, id: int, byBatch: bool, markOk: bool)
    requires Books(s) && id in s.rows
    requires byBatch ==> forall k :: 0 <= k < |s.messages| && s.messages[k].byBatch ==> s.messages[k].updateId != id
    ensures Books(HandOff(s, id, byBatch, markOk)) && Grows(s, HandOff(s, id, byBatch, markOk))
  {
  }

  lemma {:induction false} ReplayKeeps(s: Store, ids: seq<int>, env: Env)
    requires Books(s) && forall k :: 0 <= k < |ids| ==> ids[k] in s.rows
    ensures Books(Replay(s, ids, env)) && Grows(s, Replay(s, ids, env))
    ensures Replay(s, ids, env).rows.Keys == s.rows.Keys && Replay(s, ids, env).offset == s.offset
    ensures forall k :: |s.messages| <= k < |Replay(s, ids, env).messages| ==> !Replay(s, ids, env).messages[k].byBatch
    decreases |ids|
  {
    hide Books;
    if ids != [] {
      var n := |ids| - 1;
      ReplayKeeps(s, ids[..n], env);
      if ids[n] !in env.replayCreateFails { HandOffKeeps(Replay(s, ids[..n], env), ids[n], false, ids[n] !in env.replayMarkFails); }
    }
  }

  lemma LoseKeeps(s: Store, lost: map<nat, Loss>)
    requires Books(s)
    ensures Books(Lose(s, lost)) && Grows(s, Lose(s, lost))
  {
  }

  lemma {:induction false} NeedingMembers(s: Store, ids: seq<int>)
    ensures forall id :: id in Needing(s, ids) <==> id in ids && NeedsHandoff(s, id)
    ensures Distinct(ids) ==> Distinct(Needing(s, ids))
  {
    hide NeedsHandoff;
    if ids != [] {
      NeedingMembers(s, ids[1..]);
      assert ids == [ids[0]] + ids[1..];
      var rest := Needing(s, ids[1..]);
      assert forall k :: 0 <= k < |rest| ==> rest[k] in rest;
      assert Distinct(ids) ==> ids[0] !in ids[1..];
    }
  }

  lemma FirstNeedingMembers(s: Store)
    requires Books(s)
    ensures forall k :: 0 <= k < |FirstNeeding(s)| ==> FirstNeeding(s)[k] in s.rows && NeedsHandoff(s, FirstNeeding(s)[k])
    ensures Distinct(FirstNeeding(s))
  {
    NeedingMembers(s, s.order);
    var all := Needing(s, s.order);
    forall k | 0 <= k < |all| ensures NeedsHandoff(s, all[k]) && all[k] in s.rows { assert all[k] in all; }
  }

  lemma TakeKeeps(s: Store, u: Update, env: Env)
    requires Books(s)
    ensures Books(Take(s, u, env)) && Grows(s, Take(s, u, env)) && Take(s, u, env).offset == s.offset
    ensures forall k :: |s.messages| <= k < |Take(s, u, env).messages| ==> Take(s, u, env).messages[k] == Message(u.id, true, InFlight)
    ensures u.mapped ==> (u.id in Take(s, u, env).rows <==> u.id in s.rows || u.id !in env.insertFails)
    ensures forall id :: id in Take(s, u, env).rows && id !in s.rows ==> id == u.id && id !in env.insertFails
  {
    if u.mapped && u.id !in env.insertFails && u.id !in s.rows {
      var inserted := s.(rows := s.rows[u.id := None], order := s.order + [u.id]);
      assert Books(inserted) by {
        assert forall k :: 0 <= k < |s.order| ==> s.order[k] in s.order;
      }
      if u.id !in env.createFails { HandOffKeeps(inserted, u.id, true, u.id !in env.markFails); }
    }
  }

  /** A processed batch hands off only its own updates, each at most once ever, and leaves a row for every update it
      could handle whose insert did not throw. */
  lemma {:induction false} TakeAllKeeps(s: Store, updates: seq<Update>, env: Env)
    requires Books(s)
    ensures var t := TakeAll(s, updates, env);
            && Books(t) && Grows(s, t) && t.offset == s.offset
            && (forall k :: |s.messages| <= k < |t.messages| ==>
                  t.messages[k].byBatch && exists j :: 0 <= j < |updates| && updates[j].id == t.messages[k].updateId)
            && (forall j :: 0 <= j < |updates| && updates[j].mapped ==>
                  (updates[j].id in t.rows <==> updates[j].id in s.rows || updates[j].id !in env.insertFails))
            && (forall id :: id in t.rows && id !in s.rows ==> id !in env.insertFails)
    decreases |updates|
  {
    hide Books;
    hide Take;
    if updates != [] {
      var n := |updates| - 1;
      var u, m := updates[n], TakeAll(s, updates[..n], env);
      TakeAllKeeps(s, updates[..n], env);
      TakeKeeps(m, u, env);
      var t := TakeAll(s, updates, env);
      forall k | |s.messages| <= k < |t.messages|
        ensures t.messages[k].byBatch && exists j :: 0 <= j < |updates| && updates[j].id == t.messages[k].updateId
      {
        if k < |m.messages| {
          var j :| 0 <= j < |updates[..n]| && updates[..n][j].id == m.messages[k].updateId;
          assert updates[j].id == t.messages[k].updateId;
        } else {
          assert updates[n].id == t.messages[k].updateId;
        }
      }
      forall j | 0 <= j < |updates| && updates[j].mapped
        ensures updates[j].id in t.rows <==> updates[j].id in s.rows || updates[j].id !in env.insertFails
      {
        if j < n { assert updates[..n][j] == updates[j]; }
        assert m.rows.Keys <= t.rows.Keys;
      }
    }
  }

  // ---- the replay --------------------------------------------------------

  /** The replay creates a message for the id, and marks its row. */
  predicate Created(ids: seq<int>, env: Env, id: int) { id in ids && id !in env.replayCreateFails }

  predicate Marked(ids: seq<int>, env: Env, id: int) { Created(ids, env, id) && id !in env.replayMarkFails }

  lemma {:induction false} ReplayOne(s: Store, ids: seq<int>, env: Env, id: int)
    requires Distinct(ids) && id in s.rows
    ensures var t := Replay(s, ids, env);
            && |t.messages| >= |s.messages| && (forall k :: 0 <= k < |s.messages| ==> t.messages[k] == s.messages[k])
            && id in t.rows
            && (!Marked(ids, env, id) ==> t.rows[id] == s.rows[id])
            && (Marked(ids, env, id) ==> t.rows[id].Some? && |s.messages| <= t.rows[id].value < |t.messages|
                                         && t.messages[t.rows[id].value] == Message(id, false, InFlight))
    decreases |ids|
  {
    if ids != [] {
      var n := |ids| - 1;
      ReplayOne(s, ids[..n], env, id);
      assert ids == ids[..n] + [ids[n]];
      assert ids[n] !in ids[..n];
    }
  }

  lemma {:induction false} ReplayCreates(s: Store, ids: seq<int>, env: Env, id: int)
    requires Distinct(ids)
    ensures var t := Replay(s, ids, env);
            && |t.messages| >= |s.messages|
            && (forall k :: |s.messages| <= k < |t.messages| && t.messages[k].updateId == id ==>
                  Created(ids, env, id) && t.messages[k] == Message(id, false, InFlight))
            && (Created(ids, env, id) ==> exists k :: |s.messages| <= k < |t.messages| && t.messages[k].updateId == id)
            && (forall k, m :: |s.messages| <= k < m < |t.messages| && t.messages[k].updateId == id ==> t.messages[m].updateId != id)
    decreases |ids|
  {
    if ids != [] {
      var n := |ids| - 1;
      var before := Replay(s, ids[..n], env);
      ReplayCreates(s, ids[..n], env, id);
      assert ids == ids[..n] + [ids[n]];
      assert ids[n] !in ids[..n];
      if Created(ids[..n], env, id) {
        var k :| |s.messages| <= k < |before.messages| && before.messages[k].updateId == id;
        assert Replay(s, ids, env).messages[k].updateId == id;
      } else if id == ids[n] && id !in env.replayCreateFails {
        assert Replay(s, ids, env).messages[|before.messages|].updateId == id;
      }
    }
  }

  /** The replay creates one message for exactly the oldest events that need one and whose create does not throw; an event
      stops waiting exactly if its mark does not throw either, and nothing is forgotten. */
  lemma ReplayIsExact(s: Store, env: Env, id: int)
    requires Books(s) && env.queryOk && id in s.rows
    ensures var t := Reconciled(s, env);
            var created := NeedsHandoff(s, id) && id in FirstNeeding(s) && id !in env.replayCreateFails;
            var marked := created && id !in env.replayMarkFails;
            && |t.messages| >= |s.messages| && (forall k :: 0 <= k < |s.messages| ==> t.messages[k] == s.messages[k])
            && ((exists k :: |s.messages| <= k < |t.messages| && t.messages[k].updateId == id) <==> created)
            && (forall k, m :: |s.messages| <= k < m < |t.messages| && t.messages[k].updateId == id ==> t.messages[m].updateId != id)
            && id in t.rows && (!marked ==> t.rows[id] == s.rows[id])
            && (NeedsHandoff(t, id) <==> NeedsHandoff(s, id) && !marked)
  {
    FirstNeedingMembers(s);
    RowsPoint(s, id);
    hide FirstNeeding, Books, Replay;
    var ids := FirstNeeding(s);
    if id in ids { assert NeedsHandoff(s, id); }
    ReplayOne(s, ids, env, id);
    ReplayCreates(s, ids, env, id);
  }

  lemma RowsPoint(s: Store, id: int)
    requires Books(s) && id in s.rows
    ensures s.rows[id].Some? ==> s.rows[id].value < |s.messages| && s.messages[s.rows[id].value].updateId == id
  {
  }

  /** With at most fifty events waiting and no failure, nothing is left waiting. */
  lemma ReplayDrains(s: Store, env: Env)
    requires Books(s) && env.queryOk && |Needing(s, s.order)| <= RECONCILE_LIMIT
    requires env.replayCreateFails == {} && env.replayMarkFails == {}
    ensures forall id :: id in s.rows ==> !NeedsHandoff(Reconciled(s, env), id)
  {
    NeedingMembers(s, s.order);
    forall id | id in s.rows ensures !NeedsHandoff(Reconciled(s, env), id) { ReplayIsExact(s, env, id); }
  }

  // ---- whole runs --------------------------------------------------------

  datatype Run = Run(start: Core, envs: seq<Env>)
  {
    function Before(i: nat): Core
      requires i <= |envs|
      decreases i
    {
      if i == 0 then start else Step(Before(i - 1), envs[i - 1]).0
    }

    function Event(i: nat): Event
      requires i < |envs|
    {
      Step(Before(i), envs[i]).1
    }

    /** Telegram answers a poll with updates above the offset that was asked for. */
    ghost predicate Honest() {
      forall i :: 0 <= i < |envs| && envs[i].poll.Updates? ==>
        forall k :: 0 <= k < |envs[i].poll.updates| ==> envs[i].poll.updates[k].id > Before(i).store.offset
    }

    /** The clock never goes back, and the loop sleeps a tick after watching. */
    ghost predicate Timed() {
      && start.phase.Idle? && start.downStreak == 0
      && (forall i :: 0 <= i < |envs| ==> envs[i].readAt <= envs[i].answerAt <= envs[i].handledAt <= envs[i].endAt)
      && (forall i :: 0 <= i < |envs| && Before(i).phase.Idle? ==> envs[i].handledAt + TICK_MS <= envs[i].endAt)
      && (forall i :: 0 < i < |envs| ==> envs[i - 1].endAt <= envs[i].readAt)
    }

    /** The i-th iteration was answered 409, on the seed or on a poll. */
    predicate Answered409(i: nat)
      requires i < |envs|
    {
      Event(i).SeedConflict? || Event(i).PollConflict?
    }
  }

  /** The store the i-th iteration works on, after the replay. */
  function Woken(r: Run, i: nat): Store
    requires i < |r.envs|
  {
    Awake(r.Before(i), r.envs[i]).store
  }

  lemma WakingKeeps(c: Core, env: Env)
    requires Books(c.store)
    ensures Books(Awake(c, env).store) && Grows(c.store, Awake(c, env).store)
    ensures Awake(c, env).store.rows.Keys == c.store.rows.Keys && Awake(c, env).store.offset == c.store.offset
    ensures forall k :: |c.store.messages| <= k < |Awake(c, env).store.messages| ==> !Awake(c, env).store.messages[k].byBatch
  {
    hide Books;
    hide Grows;
    hide FirstNeeding;
    var s := Lose(c.store, env.lost);
    LoseKeeps(c.store, env.lost);
    if env.queryOk {
      FirstNeedingMembers(s);
      ReplayKeeps(s, FirstNeeding(s), env);
      GrowsTwice(c.store, s, Reconciled(s, env));
    }
  }

  /** What one iteration may do to the store. */
  lemma StepStore(c: Core, env: Env)
    requires Books(c.store)
    ensures var (n, e) := Step(c, env); var s := Awake(c, env).store;
            && Books(n.store) && Grows(c.store, n.store)
            && (e.Processed? ==> (!c.stopped && c.phase.Backfilling? && e.updates != [] && env.poll == Updates(e.updates)
                  && n.phase.Backfilling? && n.store == TakeAll(s, e.updates, env).(offset := MaxId(e.updates).value)))
            && (e.Seeded? ==> (!c.stopped && c.phase.Idle? && n.phase.Backfilling?
                  && n.store == if e.hw.Some? then s.(offset := e.hw.value) else s))
            && (!e.Processed? && !e.Seeded? ==> n.store == s || (c.stopped && n.store == c.store))
            && (n.phase.Backfilling? ==> e.Seeded? || c.phase.Backfilling?)
  {
    hide Books;
    hide Grows;
    WakingKeeps(c, env);
    var a := Awake(c, env);
    hide Awake;
    GrowsSelf(c.store);
    if !c.stopped && c.phase.Backfilling? && env.poll.Updates? {
      TakeAllKeeps(a.store, env.poll.updates, env);
      GrowsTwice(c.store, a.store, TakeAll(a.store, env.poll.updates, env));
    }
    OffsetIsFree(a.store);
    if env.poll.Updates? { OffsetIsFree(TakeAll(a.store, env.poll.updates, env)); GrowsOffset(c.store, TakeAll(a.store, env.poll.updates, env)); }
    GrowsOffset(c.store, a.store);
  }

  lemma GrowsSelf(s: Store)
    ensures Grows(s, s)
  {
  }

  lemma OffsetIsFree(s: Store)
    ensures forall o: int :: Books(s.(offset := o)) == Books(s)
  {
  }

  lemma GrowsOffset(s: Store, t: Store)
    ensures forall o: int :: Grows(s, t.(offset := o)) == Grows(s, t)
  {
  }

  lemma {:induction false} RunBooks(r: Run, i: nat)
    requires Books(r.start.store) && i <= |r.envs|
    ensures Books(r.Before(i).store)
    ensures Grows(r.start.store, r.Before(i).store)
    decreases i
  {
    hide Books;
    hide Grows;
    hide Step;
    GrowsSelf(r.start.store);
    if i > 0 {
      RunBooks(r, i - 1);
      StepStore(r.Before(i - 1), r.envs[i - 1]);
      GrowsTwice(r.start.store, r.Before(i - 1).store, r.Before(i).store);
    }
  }

  /** In every run no update is handed off twice by batches, whichever inserts, creates, marks and queries throw. */
  lemma NoDoubleHandoff(r: Run, j: nat)
    requires Books(r.start.store) && j <= |r.envs|
    ensures NoDoubleBatch(r.Before(j).store.messages)
  {
    RunBooks(r, j);
    hide *;
    BooksSay(r.Before(j).store);
  }

  /** A stored event is never lost. */
  lemma {:induction false} RowsStay(r: Run, i: nat, j: nat)
    requires Books(r.start.store) && i <= j <= |r.envs|
    ensures r.Before(i).store.rows.Keys <= r.Before(j).store.rows.Keys
    decreases j - i
  {
    hide *;
    if i < j {
      RowsStay(r, i, j - 1);
      RunBooks(r, j - 1);
      Unroll(r, j - 1);
      StepStore(r.Before(j - 1), r.envs[j - 1]);
      GrowsSays(r.Before(j - 1).store, r.Before(j).store);
    }
  }

  lemma Unroll(r: Run, i: nat)
    requires i < |r.envs|
    ensures r.Before(i + 1) == Step(r.Before(i), r.envs[i]).0
    ensures r.Event(i) == Step(r.Before(i), r.envs[i]).1
  {
    hide Step;
  }

  lemma BooksSay(s: Store)
    requires Books(s)
    ensures NoDoubleBatch(s.messages)
  {
  }

  lemma GrowsSays(s: Store, t: Store)
    requires Grows(s, t)
    ensures s.rows.Keys <= t.rows.Keys
  {
  }

  /** The offset moves only to a seeded high-water or to the maximum of a batch that was processed in full; and after a
      batch every update it could handle has a row, unless its insert threw: then, and only then, it is lost. */
  lemma OffsetAndRows(r: Run, i: nat)
    requires Books(r.start.store) && i < |r.envs|
    ensures var c, n, e := r.Before(i), r.Before(i + 1), r.Event(i);
            && (n.store.offset != c.store.offset ==>
                  || (e.Seeded? && e.hw == Some(n.store.offset))
                  || (e.Processed? && MaxId(e.updates) == Some(n.store.offset)))
            && (e.Processed? ==> forall j :: 0 <= j < |e.updates| && e.updates[j].mapped ==>
                  (e.updates[j].id in n.store.rows <==>
                   e.updates[j].id in c.store.rows || e.updates[j].id !in r.envs[i].insertFails))
  {
    RunBooks(r, i);
    hide Books;
    hide Grows;
    var c, env := r.Before(i), r.envs[i];
    StepStore(c, env);
    WakingKeeps(c, env);
    hide Step;
    hide Awake;
    var e := r.Event(i);
    if e.Processed? { TakeAllKeeps(Woken(r, i), e.updates, env); }
  }

  /** A batch that was fetched while the native poller came back is thrown away: nothing is stored, nothing handed off,
      the offset stays. */
  lemma DiscardedBatch(r: Run, i: nat)
    requires i < |r.envs| && r.Event(i).Discarded?
    ensures r.Before(i + 1).store == Woken(r, i) && r.Before(i + 1).phase.Idle?
    ensures r.envs[i].poll.Updates? && r.envs[i].poll.updates != []
  {
    hide TakeAll;
    hide Reconciled;
  }

  /** Sweeps i + 1 .. j belong to the backfill window that iteration i opened by seeding high-water `hw`. */
  ghost predicate InWindow(r: Run, i: nat, j: nat, hw: int)
    requires j < |r.envs|
  {
    i < j && r.Event(i) == Seeded(Some(hw)) && forall k :: i < k <= j ==> r.Before(k).phase.Backfilling?
  }

  lemma {:induction false} WindowOffset(r: Run, i: nat, j: nat, hw: int)
    requires Books(r.start.store) && r.Honest() && j < |r.envs| && InWindow(r, i, j, hw)
    ensures r.Before(j).store.offset >= hw
    decreases j - i
  {
    hide Books;
    hide Grows;
    hide Step;
    hide Awake;
    var c, env := r.Before(j - 1), r.envs[j - 1];
    Unroll(r, j - 1);
    if j > i + 1 {
      WindowOffset(r, i, j - 1, hw);
      TakeOffset(r, j - 1);
    } else {
      RunBooks(r, j - 1);
      StepStore(c, env);
    }
  }

  lemma TakeOffset(r: Run, i: nat)
    requires Books(r.start.store) && r.Honest() && i < |r.envs| && r.Before(i).phase.Backfilling?
    ensures r.Before(i + 1).store.offset >= r.Before(i).store.offset
  {
    RunBooks(r, i);
    hide Books;
    hide Grows;
    var c, env := r.Before(i), r.envs[i];
    StepStore(c, env);
    WakingKeeps(c, env);
    hide Step;
    hide Awake;
  }

  /** Inside a window nothing at or below the seeded high-water is handed off: that backlog stays the native poller's. */
  lemma NothingBelowHighWater(r: Run, i: nat, j: nat, hw: int)
    requires Books(r.start.store) && r.Honest() && j < |r.envs| && InWindow(r, i, j, hw)
    ensures var c, n := r.Before(j).store, r.Before(j + 1).store;
            forall k :: |c.messages| <= k < |n.messages| && n.messages[k].byBatch ==> n.messages[k].updateId > hw
  {
    WindowOffset(r, i, j, hw);
    RunBooks(r, j);
    var c, env := r.Before(j), r.envs[j];
    hide Books;
    StepStore(c, env);
    WakingKeeps(c, env);
    hide Awake;
    hide Step;
    hide TakeAll;
    var e := r.Event(j);
    if e.Processed? { TakeAllKeeps(Woken(r, j), e.updates, env); }
  }

  // ---- 409 answers are spaced --------------------------------------------

  /** Since the last 409 the cooldown has run out before the first DOWN reading was counted, and each further one took a
      tick; `now` is the end of the last iteration. */
  ghost predicate Paced(c: Core, now: int) {
    && (c.phase.Idle? && c.downStreak >= 1 ==> now >= c.nativeUpUntil + c.downStreak * TICK_MS)
    && (c.phase.Backfilling? ==> now >= c.nativeUpUntil + (DOWN_DEBOUNCE - 1) * TICK_MS)
  }

  lemma PacedStep(c: Core, env: Env, now: int)
    requires Paced(c, now) && now <= env.readAt <= env.answerAt <= env.handledAt <= env.endAt
    requires c.phase.Idle? ==> env.handledAt + TICK_MS <= env.endAt
    ensures var (n, e) := Step(c, env);
            && Paced(n, env.endAt)
            && (e.SeedConflict? || e.PollConflict? ==>
                  && !c.stopped && env.down
                  && env.answerAt >= c.nativeUpUntil + (DOWN_DEBOUNCE - 1) * TICK_MS
                  && n.nativeUpUntil == env.handledAt + NATIVE_409_COOLDOWN_MS)
            && (!(e.SeedConflict? || e.PollConflict?) ==> n.nativeUpUntil == c.nativeUpUntil)
  {
    hide TakeAll;
    hide Reconciled;
  }

  /** When the iteration before the k-th ended. */
  function EndBefore(r: Run, k: nat): int
    requires k < |r.envs|
  {
    if k == 0 then r.envs[0].readAt else r.envs[k - 1].endAt
  }

  lemma Clock(r: Run, k: nat)
    requires r.Timed() && k < |r.envs|
    ensures EndBefore(r, k) <= r.envs[k].readAt <= r.envs[k].answerAt <= r.envs[k].handledAt <= r.envs[k].endAt
    ensures r.Before(k).phase.Idle? ==> r.envs[k].handledAt + TICK_MS <= r.envs[k].endAt
    ensures k + 1 < |r.envs| ==> EndBefore(r, k + 1) == r.envs[k].endAt
  {
    hide Step;
  }

  lemma {:induction false} PacedFrom(r: Run, k: nat)
    requires r.Timed() && k < |r.envs|
    ensures Paced(r.Before(k), EndBefore(r, k))
    decreases k
  {
    hide *;
    if k > 0 {
      PacedFrom(r, k - 1);
      Clock(r, k - 1);
      Unroll(r, k - 1);
      PacedStep(r.Before(k - 1), r.envs[k - 1], EndBefore(r, k - 1));
    } else {
      PacedAtStart(r);
    }
  }

  lemma PacedAtStart(r: Run)
    requires r.Timed() && r.envs != []
    ensures Paced(r.Before(0), EndBefore(r, 0))
  {
    hide Step;
  }

  lemma Answered(r: Run, i: nat)
    requires i < |r.envs|
    ensures r.Answered409(i) <==> r.Event(i).SeedConflict? || r.Event(i).PollConflict?
  {
    hide Step;
  }

  lemma {:induction false} Since409(r: Run, i: nat, j: nat)
    requires r.Timed() && i < j < |r.envs| && r.Answered409(i)
    ensures r.Before(j).nativeUpUntil >= r.envs[i].answerAt + NATIVE_409_COOLDOWN_MS
    decreases j - i
  {
    hide *;
    var k := j - 1;
    if i < k {
      Since409(r, i, k);
      Later(r, i, k);
    }
    PacedFrom(r, k);
    Clock(r, k);
    Unroll(r, k);
    Answered(r, i);
    PacedStep(r.Before(k), r.envs[k], EndBefore(r, k));
  }

  lemma {:induction false} Later(r: Run, i: nat, j: nat)
    requires r.Timed() && i < j < |r.envs|
    ensures r.envs[i].answerAt <= r.envs[j].answerAt
    decreases j - i
  {
    hide *;
    Clock(r, j);
    Clock(r, j - 1);
    if i + 1 < j { Later(r, i, j - 1); }
  }

  /** Two 409 answers are at least the cooldown and the rest of the debounce apart. */
  lemma ConflictsApart(r: Run, i: nat, j: nat)
    requires r.Timed() && i < j < |r.envs| && r.Answered409(i) && r.Answered409(j)
    ensures r.envs[j].answerAt - r.envs[i].answerAt >= NATIVE_409_COOLDOWN_MS + (DOWN_DEBOUNCE - 1) * TICK_MS
  {
    hide *;
    Since409(r, i, j);
    PacedFrom(r, j);
    Clock(r, j);
    Unroll(r, j);
    Answered(r, j);
    PacedStep(r.Before(j), r.envs[j], EndBefore(r, j));
  }

  /** Telegram is asked for updates or for the high-water only in an iteration whose first probe read DOWN, and for the
      high-water only outside the cooldown and after the debounce; a batch is processed only when the second probe read
      DOWN too. */
  lemma AskedOnlyWhenDown(c: Core, env: Env)
    requires !c.stopped
    ensures var e := Step(c, env).1;
            && (!e.Watched? && !e.Yielded? ==> env.down)
            && (e.Processed? ==> env.stillDown && c.phase.Backfilling?)
            && (e.Seeded? || e.SeedConflict? || e.SeedFailed? ==>
                  c.phase.Idle? && c.downStreak + 1 >= DOWN_DEBOUNCE && !InCooldown(c.nativeUpUntil, env.readAt))
  {
    AwakeMoves(c, env);
    hide Awake;
    hide TakeAll;
  }

  lemma AwakeMoves(c: Core, env: Env)
    ensures Awake(c, env) == c.(store := Awake(c, env).store)
  {
    hide Reconciled;
    hide Lose;
  }
}
