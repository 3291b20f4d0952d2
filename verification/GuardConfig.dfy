/** Reading a stored context-guard configuration, src/context-guard.ts: any JSON becomes a safe, complete one. */
module GuardConfig {
  import opened Options
  import opened Text
  import opened ContextGuard

  /** A JSON value as far as the normaliser looks at it. */
  datatype Json = Missing | Bool(b: bool) | Num(x: real) | Str(s: string) | Other

  datatype Raw = Raw(
    enabled: Json, saturationRestart: Json, actPct: Json, hardPct: Json, limitTokens: Json,
    cooldownMinutes: Json, handoffTimeoutMinutes: Json,
    idleFlushEnabled: Json, idleFlushTokens: Json, idleMinutes: Json,
    dailyHandoffEnabled: Json, dailyHandoffTime: Json)

  const DEFAULTS := Config(
    false, true, 0.90, 0.97, None, 15.0, 20.0, false, 400000, 20.0, false, None)

  function Pct(v: Json, dflt: real): real {
    if v.Num? && 0.0 < v.x < 1.0 then v.x else dflt
  }

  function Mins(v: Json, dflt: real): real {
    if v.Num? && v.x > 0.0 then v.x else dflt
  }

  function Tokens(v: Json): Option<int> {
    if v.Num? && v.x >= 10000.0 then Some(v.x.Floor) else None
  }

  predicate IsDigit(c: char) { '0' <= c <= '9' }

  /** "H:MM" or "HH:MM" with an hour below 24 and a minute below 60; surrounding spaces are ignored. */
  predicate IsHHMM(s: string) {
    var t := Trim(s);
    var h := |t| - 3;
    && 1 <= h <= 2 && t[h] == ':' && IsDigit(t[h + 1]) && IsDigit(t[h + 2]) && t[h + 1] <= '5'
    && IsDigit(t[0]) && (h == 2 ==> IsDigit(t[1]) && (t[0] < '2' || (t[0] == '2' && t[1] <= '3')))
  }

  function Normalize(o: Raw): Config {
    var act := Pct(o.actPct, DEFAULTS.actPct);
    var hard := Pct(o.hardPct, DEFAULTS.hardPct);
    Config(
      o.enabled == Bool(true),
      o.saturationRestart != Bool(false),
      act,
      if hard < act then act else hard,
      Tokens(o.limitTokens),
      Mins(o.cooldownMinutes, DEFAULTS.cooldownMinutes),
      Mins(o.handoffTimeoutMinutes, DEFAULTS.handoffTimeoutMinutes),
      o.idleFlushEnabled == Bool(true),
      if Tokens(o.idleFlushTokens).Some? then Tokens(o.idleFlushTokens).value else DEFAULTS.idleFlushTokens,
      Mins(o.idleMinutes, DEFAULTS.idleMinutes),
      o.dailyHandoffEnabled == Bool(true),
      if o.dailyHandoffTime.Str? && IsHHMM(o.dailyHandoffTime.s) then Some(Trim(o.dailyHandoffTime.s)) else None)
  }

  /** The JSON a configuration is stored as. */
  function Stored(c: Config): Raw {
    Raw(Bool(c.enabled), Bool(c.saturationRestart), Num(c.actPct), Num(c.hardPct),
        if c.limitTokens.Some? then Num(c.limitTokens.value as real) else Missing,
        Num(c.cooldownMinutes), Num(c.handoffTimeoutMinutes),
        Bool(c.idleFlushEnabled), Num(c.idleFlushTokens as real), Num(c.idleMinutes),
        Bool(c.dailyHandoffEnabled), if c.dailyHandoffTime.Some? then Str(c.dailyHandoffTime.value) else Missing)
  }

  lemma TrimTwice(s: string)
    ensures Trim(Trim(s)) == Trim(s)
  {
    var t := Trim(s);
    if t != "" { assert t[0] == TrimStart(s)[0]; }
    TrimFixed(t);
  }

  /** Whatever was stored, the result is usable: thresholds inside (0, 1) with the hard one not below the other, positive
      periods, and token counts no typo could have produced. */
  lemma NormalizedIsSafe(o: Raw)
    ensures var c := Normalize(o);
            && 0.0 < c.actPct <= c.hardPct < 1.0 && c.Positive()
            && (c.limitTokens.Some? ==> c.limitTokens.value >= 10000) && c.idleFlushTokens >= 10000
            && (c.dailyHandoffTime.Some? ==> IsHHMM(c.dailyHandoffTime.value) && Trim(c.dailyHandoffTime.value) == c.dailyHandoffTime.value)
  {
    hide Trim;
    if o.dailyHandoffTime.Str? { TrimTwice(o.dailyHandoffTime.s); }
  }

  /** Storing a normalised configuration and reading it back changes nothing. */
  lemma NormalizeStored(o: Raw)
    ensures Normalize(Stored(Normalize(o))) == Normalize(o)
  {
    hide Trim;
    if o.dailyHandoffTime.Str? { TrimTwice(o.dailyHandoffTime.s); }
  }

  // ---- setting by setting ------------------------------------------------

  /** The stored number, if it is one the setting takes; else the default. */
  function Kept(v: Json, valid: real -> bool, dflt: real): real {
    if v.Num? && valid(v.x) then v.x else dflt
  }

  /** Every valid setting is kept and every other becomes its default: thresholds between 0 and 1, periods above 0, token counts of
      ten thousand or more, rounded down. Only the hard threshold moves without being invalid, up to the other one. The net is
      off only by an explicit false, the tiers are on only by an explicit true. */
  lemma ValidIsKept(o: Raw)
    ensures var c := Normalize(o);
            var share, period, count := (x: real) => 0.0 < x < 1.0, (x: real) => x > 0.0, (x: real) => x >= 10000.0;
            && c.actPct == Kept(o.actPct, share, 0.90)
            && c.hardPct == (var hard := Kept(o.hardPct, share, 0.97); if hard >= c.actPct then hard else c.actPct)
            && c.cooldownMinutes == Kept(o.cooldownMinutes, period, 15.0)
            && c.handoffTimeoutMinutes == Kept(o.handoffTimeoutMinutes, period, 20.0)
            && c.idleMinutes == Kept(o.idleMinutes, period, 20.0)
            && c.idleFlushTokens == Kept(o.idleFlushTokens, count, 400000.0).Floor
            && (c.limitTokens.Some? <==> o.limitTokens.Num? && count(o.limitTokens.x))
            && (c.limitTokens.Some? ==> c.limitTokens.value as real <= o.limitTokens.x < (c.limitTokens.value + 1) as real)
            && (!c.saturationRestart <==> o.saturationRestart == Bool(false))
            && (c.enabled <==> o.enabled == Bool(true)) && (c.idleFlushEnabled <==> o.idleFlushEnabled == Bool(true))
            && (c.dailyHandoffEnabled <==> o.dailyHandoffEnabled == Bool(true))
  {
    hide IsHHMM, Trim;
  }

  function Digit(n: nat): char
    requires n < 10
  {
    '0' + n as char
  }

  /** A time of day as it may be written, with or without the first zero of the hour. */
  ghost predicate Writes(t: string, h: nat, m: nat)
    requires h < 24 && m < 60
  {
    var rest := [':', Digit(m / 10), Digit(m % 10)];
    t == [Digit(h / 10), Digit(h % 10)] + rest || (h < 10 && t == [Digit(h)] + rest)
  }

  function DigitOf(c: char): nat
    requires IsDigit(c)
  {
    (c - '0') as nat
  }

  lemma DigitBack(c: char)
    requires IsDigit(c)
    ensures DigitOf(c) < 10 && Digit(DigitOf(c)) == c
  {
  }

  lemma ShortClock(t: string)
    requires |t| == 4 && t[1] == ':' && IsDigit(t[0]) && IsDigit(t[2]) && IsDigit(t[3]) && t[2] <= '5'
    ensures exists h: nat, m: nat :: h < 24 && m < 60 && Writes(t, h, m)
  {
    var h, m := DigitOf(t[0]), 10 * DigitOf(t[2]) + DigitOf(t[3]);
    DigitBack(t[0]);
    DigitBack(t[2]);
    DigitBack(t[3]);
    assert t == [t[0], t[1], t[2], t[3]];
    assert m / 10 == DigitOf(t[2]) && m % 10 == DigitOf(t[3]);
    assert Writes(t, h, m);
  }

  lemma LongClock(t: string)
    requires |t| == 5 && t[2] == ':' && IsDigit(t[0]) && IsDigit(t[1]) && IsDigit(t[3]) && IsDigit(t[4]) && t[3] <= '5'
    requires t[0] < '2' || (t[0] == '2' && t[1] <= '3')
    ensures exists h: nat, m: nat :: h < 24 && m < 60 && Writes(t, h, m)
  {
    var h, m := 10 * DigitOf(t[0]) + DigitOf(t[1]), 10 * DigitOf(t[3]) + DigitOf(t[4]);
    DigitBack(t[0]);
    DigitBack(t[1]);
    DigitBack(t[3]);
    DigitBack(t[4]);
    assert t == [t[0], t[1], t[2], t[3], t[4]];
    assert h / 10 == DigitOf(t[0]) && h % 10 == DigitOf(t[1]) && m / 10 == DigitOf(t[3]) && m % 10 == DigitOf(t[4]);
    assert Writes(t, h, m);
  }

  /** The daily time is kept, without the spaces around it, exactly when it is written as a time of day. */
  lemma TimeIsKept(o: Raw)
    ensures var c := Normalize(o);
            && (c.dailyHandoffTime.Some? <==>
                  o.dailyHandoffTime.Str? && exists h: nat, m: nat :: h < 24 && m < 60 && Writes(Trim(o.dailyHandoffTime.s), h, m))
            && (c.dailyHandoffTime.Some? ==> c.dailyHandoffTime.value == Trim(o.dailyHandoffTime.s))
  {
    hide Trim;
    if o.dailyHandoffTime.Str? {
      var t := Trim(o.dailyHandoffTime.s);
      if IsHHMM(o.dailyHandoffTime.s) {
        if |t| == 4 { ShortClock(t); } else { LongClock(t); }
      }
      if h: nat, m: nat :| h < 24 && m < 60 && Writes(t, h, m) { ClockIs(t, h, m, o.dailyHandoffTime.s); }
    }
  }

  lemma ClockIs(t: string, h: nat, m: nat, s: string)
    requires h < 24 && m < 60 && t == Trim(s) && Writes(t, h, m)
    ensures IsHHMM(s)
  {
    hide Trim;
  }
}
