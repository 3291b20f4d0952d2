/** What each usage alert judges, in the window's own numbers: percent used, reset time and length (scripts/usage-collect.py). */
module PaceVerdicts {
  import opened Options
  import opened UsageAlerts
  import opened AlertRuns

  /** The seconds of the window that have passed, none before it starts and no more than it has. */
  function Elapsed(w: Window, now: real): real
    requires w.resetsAt.Some?
  {
    var left := w.resetsAt.value - now;
    if left <= 0.0 then w.length else if left >= w.length then 0.0 else w.length - left
  }

  predicate Usable(w: Window) { w.usedPercent.Some? && w.resetsAt.Some? && w.length != 0.0 }

  /** A window is judged exactly when its numbers are there, for underuse only if it is a day long at least. */
  lemma JudgedIff(w: Window, now: real, which: Which)
    ensures Judged(w, now, which).Some? <==> Usable(w) && (which.Under? ==> w.length >= 86400.0)
  {
    hide ExhaustedAt, Share;
  }

  /** Nearly exhausted: 92 percent or more are used. */
  lemma NearIff(w: Window, now: real)
    ensures Judged(w, now, Near) == Some(true) <==> Usable(w) && w.usedPercent.value >= 92.0
  {
    hide ExhaustedAt, Share;
  }

  lemma ElapsedIs(w: Window, now: real)
    requires Usable(w) && w.length > 0.0
    ensures var f := Share(w.resetsAt.value - now, w.length); Part(f, w.length) == f * w.length == Elapsed(w, now) && f >= 0.0
  {
    var left, l := w.resetsAt.value - now, w.length;
    var f := Share(left, l);
    ShareIs(left, l);
    ShareZero(left, l);
    hide Share;
    if left >= 0.0 && f > 0.0 {
      assert (1.0 - f) * l == l - f * l;
      Scale(0.0, f, l);
    }
  }

  lemma ShareZero(left: real, l: real)
    requires l > 0.0
    ensures Share(left, l) >= 0.0 && (Share(left, l) == 0.0 ==> left >= l)
  {
    var q := (l - left) / l;
    Divided(l - left, l);
    Scale(0.0, q, l);
    assert Share(left, l) == 0.0 ==> q <= 0.0;
  }

  lemma PaceNumbers(w: Window, now: real)
    requires Usable(w)
    ensures ComputePace(w, now).Some?
    ensures var p := ComputePace(w, now).value;
            && p.used == (if w.usedPercent.value >= 0.0 then w.usedPercent.value / 100.0 else 0.0)
            && p.remaining == w.resetsAt.value - now && p.elapsed == Share(p.remaining, w.length)
  {
    hide ExhaustedAt, Share;
  }

  /** A share `f` of a length and its seconds `e`: how many hundredths `k` of it are used. */
  lemma Hundredths(u: real, f: real, e: real, l: real, k: real)
    requires l > 0.0 && f * l == e
    ensures u / 100.0 >= k * f <==> u * l >= 100.0 * k * e
    ensures u / 100.0 <= k * f <==> u * l <= 100.0 * k * e
    ensures f >= k <==> e >= k * l
  {
    assert (k * f) * l == k * e;
    assert (u / 100.0) * l == u * l / 100.0;
    Scale(u / 100.0, k * f, l);
    Scale(k * f, u / 100.0, l);
    Scale(f, k, l);
    assert 100.0 * k * e == 100.0 * (k * e);
  }

  /** The part used, with what was never used counted as none. */
  function Used(u: real): real { if u >= 0.0 then u / 100.0 else 0.0 }

  /** Overuse, of a window of `l` seconds of which `e` have passed, `late` seconds past its reset. */
  predicate OverInSeconds(u: real, e: real, l: real, late: real) {
    && e >= 0.15 * l && e > 0.000001 && u * l >= 150.0 * e
    && (late <= 0.0 || u * (l - late) > 100.0 * l)
  }

  predicate OverInShares(u: real, f: real, l: real, late: real) {
    && f >= 0.15 && Part(f, l) > 0.000001 && Used(u) >= 1.5 * f
    && (late <= 0.0 || l < Part(Used(u), l - late))
  }

  lemma OverParts(u: real, f: real, e: real, l: real, late: real)
    requires l > 0.0 && Part(f, l) == f * l == e
    ensures OverInShares(u, f, l, late) <==> OverInSeconds(u, e, l, late)
  {
    if e > 0.000001 {
      Scale(0.0, f, l);
      Hundredths(u, f, e, l, 1.5);
      Hundredths(u, f, e, l, 0.15);
      if u < 0.0 { NothingUsed(u, l, e); } else { Outrun(u, l, late); }
    }
    hide Part;
  }

  lemma UnderParts(u: real, f: real, e: real, l: real)
    requires l > 0.0 && f * l == e && f >= 0.0
    ensures f >= 0.15 <==> e >= 0.15 * l
    ensures Used(u) <= 0.5 * f <==> u * l <= 50.0 * e
  {
    Scale(e, 0.0, l);
    Hundredths(u, f, e, l, 0.5);
    Hundredths(u, f, e, l, 0.15);
    Scale(f, 0.0, l);
    if u < 0.0 { NothingUsed(u, l, e); }
  }

  lemma Outrun(u: real, l: real, late: real)
    requires l > 0.0
    ensures l < Part(u / 100.0, l - late) <==> u * (l - late) > 100.0 * l
  {
    assert u / 100.0 * (l - late) == u * (l - late) / 100.0;
  }

  lemma NothingUsed(u: real, l: real, e: real)
    requires u < 0.0 && l > 0.0 && e >= 0.0
    ensures u * l < 150.0 * e && u * l <= 50.0 * e
  {
    Product(-u, l);
    assert u * l == -((-u) * l);
  }

  /** What OverIff says of a usable window, in plain numbers. */
  lemma OverNumbers(w: Window, now: real)
    requires Usable(w) && w.length > 0.0
    ensures Judged(w, now, Over) == Some(true) <==>
            OverInShares(w.usedPercent.value, Share(w.resetsAt.value - now, w.length), w.length, now - w.resetsAt.value)
  {
    PaceNumbers(w, now);
    OverIff(w, now);
    hide ComputePace, Judged, Share, Part;
    assert w.length + (w.resetsAt.value - now) == w.length - (now - w.resetsAt.value);
  }

  lemma UnderNumbers(w: Window, now: real)
    requires Usable(w) && w.length >= 86400.0
    ensures var f := Share(w.resetsAt.value - now, w.length);
            Judged(w, now, Under) == Some(true) <==> f >= 0.15 && Used(w.usedPercent.value) <= 0.5 * f
  {
    PaceNumbers(w, now);
    PaceParts(w, now);
    JudgedIs(w, now);
    hide ComputePace, Judged, Share, Part, ExhaustedAt;
    var p := ComputePace(w, now).value;
    if p.elapsed >= 0.15 { Half(p.used, p.elapsed); }
  }

  /** Overuse: at least 15 hundredths of the window have passed, and more than a millionth of a second; the part used is at least
      one and a half times the part that has passed; and in a window that has expired it outruns the time since the reset too. */
  lemma OverusedIff(w: Window, now: real)
    requires w.length > 0.0
    ensures Judged(w, now, Over) == Some(true) <==>
            Usable(w) && OverInSeconds(w.usedPercent.value, Elapsed(w, now), w.length, now - w.resetsAt.value)
  {
    JudgedIff(w, now, Over);
    if Usable(w) {
      OverNumbers(w, now);
      ElapsedIs(w, now);
      hide *;
      OverParts(w.usedPercent.value, Share(w.resetsAt.value - now, w.length), Elapsed(w, now), w.length, now - w.resetsAt.value);
    }
  }

  /** Underuse, in windows of a day at least: 15 hundredths have passed and the part used is at most half the part that has. */
  lemma UnderusedIff(w: Window, now: real)
    ensures Judged(w, now, Under) == Some(true) <==>
            && Usable(w) && w.length >= 86400.0
            && Elapsed(w, now) >= 0.15 * w.length && w.usedPercent.value * w.length <= 50.0 * Elapsed(w, now)
  {
    JudgedIff(w, now, Under);
    if Usable(w) && w.length >= 86400.0 {
      UnderNumbers(w, now);
      ElapsedIs(w, now);
      hide *;
      var f, e := Share(w.resetsAt.value - now, w.length), Elapsed(w, now);
      UnderParts(w.usedPercent.value, f, e, w.length);
    }
  }

  lemma Half(u: real, f: real)
    requires f > 0.0
    ensures u / f <= 0.5 <==> u <= 0.5 * f
  {
    Divided(u, f);
    Scale(0.5, u / f, f);
    Scale(u / f, 0.5, f);
  }
}
