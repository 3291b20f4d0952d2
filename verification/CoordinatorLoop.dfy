/** The coordinator's loop as the source runs it: module variables and database rows changed step by step. */
module CoordinatorLoop {
  import opened Options
  import opened Coordinator

  /** incoming_events, agent_messages and poll_offset behind the calls of the ingest module. */
  class EventStore {
    var view: Store

    constructor (start: Store)
      ensures view == start
    {
      view := start;
    }

    /** INSERT ... ON CONFLICT DO NOTHING: true when the row is new. */
    method InsertIncomingEvent(id: int) returns (inserted: bool)
      modifies this
      ensures inserted <==> id !in old(view.rows)
      ensures view == if id in old(view.rows) then old(view)
                      else old(view).(rows := old(view).rows[id := None], order := old(view).order + [id])
    {
      inserted := id !in view.rows;
      if inserted {
        view := view.(rows := view.rows[id := None], order := view.order + [id]);
      }
    }

    method CreateHandoffMessage(id: int, byBatch: bool) returns (message: nat)
      modifies this
      ensures message == |old(view).messages|
      ensures view == old(view).(messages := old(view).messages + [Message(id, byBatch, InFlight)])
    {
      message := |view.messages|;
      view := view.(messages := view.messages + [Message(id, byBatch, InFlight)]);
    }

    method MarkEventDelivered(id: int, message: nat)
      modifies this
      ensures view == old(view).(rows := old(view).rows[id := Some(message)])
    {
      view := view.(rows := view.rows[id := Some(message)]);
    }

    method SetOffset(offset: int)
      modifies this
      ensures view == old(view).(offset := offset)
    {
      view := view.(offset := offset);
    }

    /** Between two iterations the router gives up on messages, and the sweep over old messages deletes some. */
    method LoseMessages(lost: map<nat, Loss>)
      modifies this
      ensures view == Lose(old(view), lost)
    {
      view := Lose(view, lost);
    }
  }

  class Loop {
    var phase: Phase
    var downStreak: nat
    var nativeConfirmedUpUntil: int
    var transientAttempt: nat
    var stopping: bool
    const db: EventStore

    constructor (db: EventStore)
      ensures this.db == db
      ensures Core() == Coordinator.Core(Idle, 0, 0, 0, false, db.view)
    {
      this.db := db;
      phase, downStreak, nativeConfirmedUpUntil, transientAttempt, stopping := Idle, 0, 0, 0, false;
    }

    function Core(): Core
      reads this, db
    {
      Coordinator.Core(phase, downStreak, nativeConfirmedUpUntil, transientAttempt, stopping, db.view)
    }

    /** processBatch: dedup-insert each update and hand off what is new; the highest id seen. */
    method ProcessBatch(updates: seq<Update>, env: Env) returns (maxId: Option<int>)
      modifies db
      ensures db.view == TakeAll(old(db.view), updates, env)
      ensures maxId == MaxId(updates)
    {
      maxId := None;
      assert updates[..0] == [];
      for k := 0 to |updates|
        invariant db.view == TakeAll(old(db.view), updates[..k], env)
        invariant maxId == MaxId(updates[..k])
      {
        var u := updates[k];
        assert updates[..k + 1][..k] == updates[..k] && updates[..k + 1][k] == u;
        maxId := if maxId.None? || u.id > maxId.value then Some(u.id) else maxId;
        if !u.mapped || u.id in env.insertFails {
          continue;
        }
        var inserted := db.InsertIncomingEvent(u.id);
        if !inserted || u.id in env.createFails {
          continue;
        }
        var message := db.CreateHandoffMessage(u.id, true);
        if u.id !in env.markFails {
          db.MarkEventDelivered(u.id, message);
        }
      }
      assert updates[..|updates|] == updates;
    }

    /** reconcilePending: the oldest events without a live message are handed off again. */
    method ReconcilePending(env: Env)
      modifies db
      ensures db.view == Reconciled(old(db.view), env)
    {
      hide *;
      ReconciledIs(db.view, env);
      if !env.queryOk {
        return;
      }
      var events := FirstNeeding(db.view);
      for k := 0 to |events|
        invariant db.view == Replay(old(db.view), events[..k], env)
      {
        ReplayNext(old(db.view), events, env, k);
        if events[k] in env.replayCreateFails {
          continue;
        }
        var message := db.CreateHandoffMessage(events[k], false);
        if events[k] !in env.replayMarkFails {
          db.MarkEventDelivered(events[k], message);
        }
      }
      assert events[..|events|] == events;
    }

    /** The body of the loop while the native poller is watched. */
    method WatchOnce(env: Env)
      requires phase.Idle?
      modifies this, db
      ensures Core() == StepIdle(old(Core()), env).0
    {
      hide TakeAll;
      hide Reconciled;
      var down := env.down && !InCooldown(nativeConfirmedUpUntil, env.readAt);
      downStreak := if down then downStreak + 1 else 0;
      if downStreak >= DOWN_DEBOUNCE {
        match env.seed {
          case HighWater(hw) =>
            if hw.Some? {
              db.SetOffset(hw.value);
            }
            phase, transientAttempt := Backfilling, 0;
          case SeedError(kind) =>
            if kind.Fatal? {
              stopping := true;
            } else if kind.Conflict? {
              nativeConfirmedUpUntil := env.handledAt + NATIVE_409_COOLDOWN_MS;
              downStreak := 0;
            }
        }
      }
    }

    /** The body of the loop while backfilling. */
    method BackfillOnce(env: Env)
      requires phase.Backfilling?
      modifies this, db
      ensures Core() == StepBackfilling(old(Core()), env).0
    {
      hide TakeAll;
      hide Reconciled;
      if !env.down {
        phase, downStreak := Idle, 0;
        return;
      }
      match env.poll {
        case PollError(kind) =>
          if kind.Fatal? {
            stopping := true;
          } else if kind.Conflict? {
            nativeConfirmedUpUntil := env.handledAt + NATIVE_409_COOLDOWN_MS;
            phase, downStreak := Idle, 0;
          } else if kind.Transient? {
            transientAttempt := transientAttempt + 1;
          }
        case Updates(updates) =>
          transientAttempt := 0;
          if updates == [] {
            return;
          }
          if !env.stillDown {
            phase, downStreak := Idle, 0;
            return;
          }
          var maxId := ProcessBatch(updates, env);
          if maxId.Some? {
            db.SetOffset(maxId.value);
          }
      }
    }

    /** runLoop against a given environment. */
    method RunLoop(envs: seq<Env>)
      modifies this, db
      ensures Core() == Run(old(Core()), envs).Before(|envs|)
    {
      hide Step;
      ghost var r := Run(Core(), envs);
      for i := 0 to |envs|
        invariant Core() == r.Before(i)
      {
        Unroll(r, i);
        StepIs(Core(), envs[i]);
        hide *;
        if !stopping {
          db.LoseMessages(envs[i].lost);
          ReconcilePending(envs[i]);
          if phase.Idle? {
            WatchOnce(envs[i]);
          } else {
            BackfillOnce(envs[i]);
          }
        }
      }
    }
  }

  lemma StepIs(c: Core, env: Env)
    ensures Step(c, env).0 ==
            var awake := c.(store := Reconciled(Lose(c.store, env.lost), env));
            if c.stopped then c else if c.phase.Idle? then StepIdle(awake, env).0 else StepBackfilling(awake, env).0
  {
    hide StepIdle;
    hide StepBackfilling;
    hide Reconciled;
    hide Lose;
  }

  lemma ReconciledIs(s: Store, env: Env)
    ensures Reconciled(s, env) == if env.queryOk then Replay(s, FirstNeeding(s), env) else s
    ensures Replay(s, FirstNeeding(s)[..0], env) == s
  {
    hide FirstNeeding;
  }

  lemma ReplayNext(s: Store, ids: seq<int>, env: Env, k: nat)
    requires k < |ids|
    ensures var before, id := Replay(s, ids[..k], env), ids[k];
            Replay(s, ids[..k + 1], env) ==
            if id in env.replayCreateFails then before
            else before.(messages := before.messages + [Message(id, false, InFlight)],
                         rows := if id in env.replayMarkFails then before.rows else before.rows[id := Some(|before.messages|)])
  {
    assert ids[..k + 1][..k] == ids[..k];
  }
}
