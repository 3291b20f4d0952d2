/** The rolling-window limiter of scripts/send-digest-email.py: at most six notices an hour, persisted in a file that is
    rewritten under a lock, and robust against a clock that jumps. */
module NoticeLimiter {

  const WINDOW: real := 3600.0
  const MAX_PER_WINDOW: nat := 6

  /** The state file: absent, not what this program writes, or a list of send times. */
  datatype File = Missing | Broken | Sent(times: seq<real>)

  datatype Reply = Reserved | RateLimited | StateError

  /** One call: its clock reading, and whether the lock is taken and a write succeeds. */
  datatype Call = Call(now: real, lockOk: bool, writeOk: bool)

  function Min(a: real, b: real): real { if a <= b then a else b }

  /** No stamp lies past the reading of the clock. */
  function Clamp(times: seq<real>, now: real): seq<real> {
    if times == [] then [] else [Min(times[0], now)] + Clamp(times[1..], now)
  }

  function Recent(times: seq<real>, now: real): seq<real> {
    if times == [] then [] else (if now - times[0] < WINDOW then [times[0]] else []) + Recent(times[1..], now)
  }

  function Times(f: File): seq<real> {
    if f.Sent? then f.times else []
  }

  function Reserve(f: File, c: Call): (File, Reply) {
    if !c.lockOk || f.Broken? then (f, StateError)
    else
      var clamped := exists t :: t in Times(f) && t > c.now;
      var recent := Recent(Clamp(Times(f), c.now), c.now);
      if |recent| >= MAX_PER_WINDOW then
        if clamped then (if c.writeOk then (Sent(recent), RateLimited) else (f, StateError)) else (f, RateLimited)
      else if c.writeOk then (Sent(recent + [c.now]), Reserved)
      else (f, StateError)
  }

  /** The limiter over its file. */
  class Limiter {
    var file: File

    constructor (file: File)
      ensures this.file == file
    {
      this.file := file;
    }

    /** _read_notice_state: the clamped times, and whether any had to be clamped. */
    method Read(now: real) returns (ok: bool, times: seq<real>, clamped: bool)
      ensures ok <==> !file.Broken?
      ensures ok ==> times == Clamp(Times(file), now) && (clamped <==> exists t :: t in Times(file) && t > now)
    {
      return !file.Broken?, Clamp(Times(file), now), exists t :: t in Times(file) && t > now;
    }

    /** _write_notice_state: the whole list is replaced, or nothing is. */
    method Write(times: seq<real>, writeOk: bool) returns (ok: bool)
      modifies this
      ensures ok == writeOk
      ensures file == if writeOk then Sent(times) else old(file)
    {
      if writeOk {
        file := Sent(times);
      }
      return writeOk;
    }

    /** _reserve_done_notice_slot. */
    method ReserveSlot(c: Call) returns (reply: Reply)
      modifies this
      ensures (file, reply) == Reserve(old(file), c)
    {
      if !c.lockOk {
        return StateError;
      }
      var ok, times, clamped := Read(c.now);
      if !ok {
        return StateError;
      }
      var recent := Recent(times, c.now);
      if |recent| >= MAX_PER_WINDOW {
        if clamped {
          ok := Write(recent, c.writeOk);
          if !ok {
            return StateError;
          }
        }
        return RateLimited;
      }
      ok := Write(recent + [c.now], c.writeOk);
      return if ok then Reserved else StateError;
    }
  }

  // ---- runs --------------------------------------------------------------

  datatype Run = Run(start: File, calls: seq<Call>)
  {
    function FileAt(i: nat): File
      requires i <= |calls|
      decreases i
    {
      if i == 0 then start else Reserve(FileAt(i - 1), calls[i - 1]).0
    }

    function ReplyAt(i: nat): Reply
      requires i < |calls|
    {
      Reserve(FileAt(i), calls[i]).1
    }

    /** The times of the reservations made by the first `i` calls. */
    function Granted(i: nat): seq<real>
      requires i <= |calls|
      decreases i
    {
      if i == 0 then []
      else Granted(i - 1) + (if ReplyAt(i - 1).Reserved? then [calls[i - 1].now] else [])
    }

    ghost predicate Forward() {
      forall i, j :: 0 <= i <= j < |calls| ==> calls[i].now <= calls[j].now
    }
  }

  ghost predicate Rising(ts: seq<real>) {
    forall i, j :: 0 <= i <= j < |ts| ==> ts[i] <= ts[j]
  }

  ghost predicate AtMost(ts: seq<real>, now: real) {
    forall k :: 0 <= k < |ts| ==> ts[k] <= now
  }

  lemma {:induction false} ClampKeeps(ts: seq<real>, now: real)
    ensures AtMost(Clamp(ts, now), now)
    ensures AtMost(ts, now) ==> Clamp(ts, now) == ts
  {
    if ts != [] { ClampKeeps(ts[1..], now); }
  }

  lemma {:induction false} ClampBelow(ts: seq<real>, now: real, b: real)
    requires AtMost(ts, b)
    ensures AtMost(Clamp(ts, now), b)
  {
    if ts != [] { ClampBelow(ts[1..], now, b); }
  }

  lemma {:induction false} RecentBelow(ts: seq<real>, now: real, b: real)
    requires AtMost(ts, b)
    ensures AtMost(Recent(ts, now), b)
    ensures now - b >= WINDOW ==> Recent(ts, now) == []
  {
    if ts != [] { RecentBelow(ts[1..], now, b); }
  }

  /** Of rising times the recent ones are the last ones. */
  lemma {:induction false} RecentSuffix(ts: seq<real>, now: real)
    requires Rising(ts)
    ensures |Recent(ts, now)| <= |ts|
    ensures Recent(ts, now) == ts[|ts| - |Recent(ts, now)|..]
    ensures forall k :: 0 <= k < |ts| - |Recent(ts, now)| ==> now - ts[k] >= WINDOW
    ensures forall k :: |ts| - |Recent(ts, now)| <= k < |ts| ==> now - ts[k] < WINDOW
  {
    if ts != [] {
      if now - ts[0] < WINDOW {
        AllRecent(ts, now);
      } else {
        var rest := ts[1..];
        RecentSuffix(rest, now);
        var m := |Recent(rest, now)|;
        assert Recent(ts, now) == Recent(rest, now);
        hide Recent;
        assert rest[|rest| - m..] == ts[|ts| - m..];
        assert forall k :: 1 <= k < |ts| ==> ts[k] == rest[k - 1];
      }
    }
  }

  lemma {:induction false} AllRecent(ts: seq<real>, now: real)
    requires forall k :: 0 <= k < |ts| ==> now - ts[k] < WINDOW
    ensures Recent(ts, now) == ts
  {
    if ts != [] { AllRecent(ts[1..], now); }
  }

  /** What the file holds in a run from no file at all: the last reservations, everything dropped being over an hour older
      than the newest. */
  ghost predicate Remembers(f: File, granted: seq<real>) {
    && !f.Broken?
    && |Times(f)| <= |granted|
    && Times(f) == granted[|granted| - |Times(f)|..]
    && forall k :: 0 <= k < |granted| - |Times(f)| ==> granted[|granted| - 1] - granted[k] >= WINDOW
  }

  /** Seven reservations never lie within one window. */
  ghost predicate Spaced(granted: seq<real>) {
    forall k :: 0 <= k && k + MAX_PER_WINDOW < |granted| ==> granted[k + MAX_PER_WINDOW] - granted[k] >= WINDOW
  }

  /** A call refuses, or would refuse, exactly when six reservations lie within the last window. */
  ghost predicate Full(granted: seq<real>, now: real) {
    |granted| >= MAX_PER_WINDOW && now - granted[|granted| - MAX_PER_WINDOW] < WINDOW
  }

  /** In such a run nothing is clamped and the recent times are the recent reservations. */
  lemma RecentGranted(f: File, granted: seq<real>, now: real)
    requires Remembers(f, granted) && Rising(granted) && AtMost(granted, now)
    ensures Clamp(Times(f), now) == Times(f) && !exists t :: t in Times(f) && t > now
    ensures var m := |Recent(Times(f), now)|; var n := |granted|;
            && m <= n && Recent(Times(f), now) == granted[n - m..]
            && (forall k :: 0 <= k < n - m ==> now - granted[k] >= WINDOW)
            && (forall k :: n - m <= k < n ==> now - granted[k] < WINDOW)
  {
    hide *;
    Remembered(f, granted, now);
    ClampKeeps(Times(f), now);
    RecentSuffix(Times(f), now);
    SuffixOfSuffix(granted, |granted| - |Times(f)|, |Recent(Times(f), now)|, now);
  }

  lemma Remembered(f: File, granted: seq<real>, now: real)
    requires Remembers(f, granted) && Rising(granted) && AtMost(granted, now)
    ensures |Times(f)| <= |granted| && Times(f) == granted[|granted| - |Times(f)|..]
    ensures Rising(Times(f)) && AtMost(Times(f), now)
    ensures forall k :: 0 <= k < |granted| - |Times(f)| ==> now - granted[k] >= WINDOW
    ensures !exists t :: t in Times(f) && t > now
  {
  }

  lemma SuffixOfSuffix(all: seq<real>, from: nat, m: nat, now: real)
    requires from <= |all| && m <= |all| - from
    requires forall k :: 0 <= k < from ==> now - all[k] >= WINDOW
    requires forall k :: 0 <= k < |all| - from - m ==> now - all[from..][k] >= WINDOW
    requires forall k :: |all| - from - m <= k < |all| - from ==> now - all[from..][k] < WINDOW
    ensures all[from..][|all| - from - m..] == all[|all| - m..]
    ensures forall k :: 0 <= k < |all| - m ==> now - all[k] >= WINDOW
    ensures forall k :: |all| - m <= k < |all| ==> now - all[k] < WINDOW
  {
    assert forall k :: from <= k < |all| ==> all[k] == all[from..][k - from];
  }

  lemma FullIffRecent(granted: seq<real>, now: real, m: nat)
    requires m <= |granted|
    requires forall k :: 0 <= k < |granted| - m ==> now - granted[k] >= WINDOW
    requires forall k :: |granted| - m <= k < |granted| ==> now - granted[k] < WINDOW
    ensures m >= MAX_PER_WINDOW <==> Full(granted, now)
  {
  }

  lemma GrantKeeps(granted: seq<real>, now: real, m: nat)
    requires Rising(granted) && AtMost(granted, now) && Spaced(granted) && m <= |granted| && m < MAX_PER_WINDOW
    requires forall k :: 0 <= k < |granted| - m ==> now - granted[k] >= WINDOW
    ensures var after := granted + [now];
            Remembers(Sent(granted[|granted| - m..] + [now]), after) && Rising(after) && Spaced(after)
  {
    var after := granted + [now];
    assert granted[|granted| - m..] + [now] == after[|after| - m - 1..];
  }

  lemma RecentKeeps(f: File, granted: seq<real>, c: Call)
    requires Remembers(f, granted) && Rising(granted) && AtMost(granted, c.now) && Spaced(granted)
    ensures var (g, reply) := Reserve(f, c);
            && (reply.Reserved? ==> Remembers(g, granted + [c.now]) && Rising(granted + [c.now]) && Spaced(granted + [c.now]))
            && (!reply.Reserved? ==> g == f)
            && (reply.Reserved? ==> !Full(granted, c.now))
            && (reply.RateLimited? ==> Full(granted, c.now))
            && (c.lockOk && c.writeOk ==> (reply.Reserved? <==> !Full(granted, c.now)))
  {
    hide Remembers;
    hide Rising;
    hide Spaced;
    hide Full;
    hide Recent;
    hide Clamp;
    hide Times;
    RecentGranted(f, granted, c.now);
    NotBroken(f, granted);
    var m := |Recent(Times(f), c.now)|;
    FullIffRecent(granted, c.now, m);
    if m < MAX_PER_WINDOW { GrantKeeps(granted, c.now, m); }
  }

  lemma NotBroken(f: File, granted: seq<real>)
    requires Remembers(f, granted)
    ensures !f.Broken?
  {
  }

  lemma ReserveRemembers(f: File, granted: seq<real>, c: Call)
    requires Remembers(f, granted) && Rising(granted) && AtMost(granted, c.now) && Spaced(granted)
    ensures var (g, reply) := Reserve(f, c);
            var after := granted + if reply.Reserved? then [c.now] else [];
            && Remembers(g, after) && Rising(after) && Spaced(after)
            && (reply.Reserved? ==> !Full(granted, c.now))
            && (reply.RateLimited? ==> Full(granted, c.now))
            && (c.lockOk && c.writeOk ==> (reply.Reserved? <==> !Full(granted, c.now)))
  {
    hide *;
    RecentKeeps(f, granted, c);
    assert granted + [] == granted;
  }

  lemma {:induction false} RunRemembers(r: Run, i: nat)
    requires r.start.Missing? && r.Forward() && i <= |r.calls|
    ensures Remembers(r.FileAt(i), r.Granted(i)) && Rising(r.Granted(i)) && Spaced(r.Granted(i))
    ensures i > 0 ==> AtMost(r.Granted(i), r.calls[i - 1].now)
  {
    hide Remembers;
    hide Reserve;
    hide Spaced;
    hide Full;
    if i > 0 {
      RunRemembers(r, i - 1);
      var c := r.calls[i - 1];
      assert AtMost(r.Granted(i - 1), c.now) by {
        if i > 1 { assert r.calls[i - 2].now <= c.now; }
      }
      ReserveRemembers(r.FileAt(i - 1), r.Granted(i - 1), c);
    } else {
      NothingRemembered();
    }
  }

  lemma NothingRemembered()
    ensures Remembers(Missing, []) && Spaced([])
  {
  }

  /** From no state file and with a clock that never goes back, no window of an hour, open at one end, ever holds more than
      six reservations. */
  lemma AtMostSixPerHour(r: Run, a: nat, b: nat)
    requires r.start.Missing? && r.Forward()
    requires a < b < |r.Granted(|r.calls|)|
    ensures var g := r.Granted(|r.calls|); g[b] - g[a] < WINDOW ==> b - a < MAX_PER_WINDOW
  {
    RunRemembers(r, |r.calls|);
    var g := r.Granted(|r.calls|);
    if b - a >= MAX_PER_WINDOW { assert g[a + MAX_PER_WINDOW] - g[a] >= WINDOW; }
  }

  /** A call that can take the lock and write is granted exactly when fewer than six reservations lie within the last hour,
      and refused only for that reason. */
  lemma GrantedIffRoom(r: Run, i: nat)
    requires r.start.Missing? && r.Forward() && i < |r.calls|
    ensures var c := r.calls[i];
            && (r.ReplyAt(i).RateLimited? ==> Full(r.Granted(i), c.now))
            && (c.lockOk && c.writeOk ==> (r.ReplyAt(i).Reserved? <==> !Full(r.Granted(i), c.now)))
  {
    hide Remembers;
    hide Reserve;
    hide Spaced;
    hide Full;
    RunRemembers(r, i);
    if i > 0 { assert r.calls[i - 1].now <= r.calls[i].now; }
    ReserveRemembers(r.FileAt(i), r.Granted(i), r.calls[i]);
  }

  /** Whatever well-formed file a call finds, and wherever its clock stands: once it has answered, no stamp lies past its
      time. */
  lemma StampsSettle(f: File, c: Call)
    requires !Reserve(f, c).1.StateError?
    ensures AtMost(Times(Reserve(f, c).0), c.now)
  {
    var ts := Times(f);
    ClampKeeps(ts, c.now);
    RecentBelow(Clamp(ts, c.now), c.now, c.now);
    hide Recent;
    hide Clamp;
    assert forall k :: 0 <= k < |ts| ==> ts[k] in ts;
  }

  lemma StampsStay(f: File, c: Call, b: real)
    requires AtMost(Times(f), b) && !Reserve(f, c).1.Reserved?
    ensures AtMost(Times(Reserve(f, c).0), b)
    ensures c.now - b >= WINDOW ==> !Reserve(f, c).1.RateLimited?
  {
    ClampBelow(Times(f), c.now, b);
    RecentBelow(Clamp(Times(f), c.now), c.now, b);
    hide Recent;
    hide Clamp;
  }

  /** From any file and with any clock, a stretch of refusals is over within an hour: two refusals with no reservation
      between them are less than a window apart. */
  lemma RefusalsEnd(r: Run, i: nat, j: nat)
    requires i < j < |r.calls| && r.ReplyAt(i).RateLimited? && r.ReplyAt(j).RateLimited?
    requires forall k :: i < k < j ==> !r.ReplyAt(k).Reserved?
    ensures r.calls[j].now - r.calls[i].now < WINDOW
  {
    hide Reserve;
    StampsSettle(r.FileAt(i), r.calls[i]);
    StampsHold(r, i, j);
    StampsStay(r.FileAt(j), r.calls[j], r.calls[i].now);
  }

  lemma {:induction false} StampsHold(r: Run, i: nat, j: nat)
    requires i < j <= |r.calls| && AtMost(Times(r.FileAt(i + 1)), r.calls[i].now)
    requires forall k :: i < k < j ==> !r.ReplyAt(k).Reserved?
    ensures AtMost(Times(r.FileAt(j)), r.calls[i].now)
    decreases j - i
  {
    hide Reserve;
    if j > i + 1 {
      StampsHold(r, i, j - 1);
      assert !r.ReplyAt(j - 1).Reserved?;
      StampsStay(r.FileAt(j - 1), r.calls[j - 1], r.calls[i].now);
    }
  }

  // ---- one call on any file ----------------------------------------------

  /** The stamps of the last hour, in order; one from the future counts as now. */
  function Kept(ts: seq<real>, now: real): seq<real> {
    if ts == [] then []
    else
      var n := |ts| - 1;
      Kept(ts[..n], now) + if ts[n] > now then [now] else if ts[n] > now - 3600.0 then [ts[n]] else []
  }

  lemma {:induction false} KeptConcat(a: seq<real>, b: seq<real>, now: real)
    ensures Kept(a + b, now) == Kept(a, now) + Kept(b, now)
  {
    if b == [] {
      assert a + b == a;
    } else {
      var n := |b| - 1;
      KeptConcat(a, b[..n], now);
      assert (a + b)[..|a| + n] == a + b[..n];
    }
  }

  lemma {:induction false} RecentIsKept(ts: seq<real>, now: real)
    ensures Recent(Clamp(ts, now), now) == Kept(ts, now)
  {
    if ts != [] {
      RecentIsKept(ts[1..], now);
      KeptConcat(ts[..1], ts[1..], now);
      assert ts == ts[..1] + ts[1..] && ts[..1][..0] == [];
      assert Clamp(ts, now)[1..] == Clamp(ts[1..], now);
    }
  }

  /** What a call answers and leaves, whatever the file holds: it fails without the lock, on a file that is not its own and when
      a write it needs does not go through; it refuses exactly when six stamps lie in the last hour or the future; a refusal
      writes only to take stamps back from the future. */
  lemma ReplyIs(f: File, c: Call)
    ensures var (g, reply) := Reserve(f, c);
            var kept := Kept(Times(f), c.now);
            var ahead := exists t :: t in Times(f) && t > c.now;
            var writes := |kept| < 6 || ahead;
            && (reply.StateError? <==> !c.lockOk || f.Broken? || (writes && !c.writeOk))
            && (!reply.StateError? ==> (reply.RateLimited? <==> |kept| >= 6))
            && g == (if reply.StateError? || !writes then f else Sent(if |kept| < 6 then kept + [c.now] else kept))
  {
    RecentIsKept(Times(f), c.now);
    hide Recent, Clamp, Kept;
  }
}
