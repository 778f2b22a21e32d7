/** The alert limiter over whole runs (internal/server/alerts.go): how often it may speak,
    and that forgetting old samples and alerts never changes what it says. */
module AlertRuns {
  import opened Base
  import opened Alerts

  /** A minute: the clock and the prices that came back. */
  datatype Moment = Moment(now: int, quotes: Quotes)

  ghost predicate Clocked(ticks: seq<Moment>) {
    forall i, j :: 0 <= i < j < |ticks| ==> ticks[i].now <= ticks[j].now
  }

  const Empty := State(map[], map[], 1, [], [])

  function Run(ticks: seq<Moment>): State {
    if ticks == [] then Empty
    else var m := ticks[|ticks| - 1]; Tick(Run(ticks[..|ticks| - 1]), m.now, m.quotes)
  }

  // ---- a sampler that never forgets -----------------------------------------------------------

  function Remembered(st: State, token: string, now: int, p: Price): State {
    st.(samples := st.samples[token := SamplesOf(st, token) + [Sample(Unix(now), p)]])
  }

  function RememberAll(st: State, now: int, quotes: Quotes, tokens: seq<string>): State {
    if tokens == [] then st
    else
      var up, token := RememberAll(st, now, quotes, tokens[..|tokens| - 1]), tokens[|tokens| - 1];
      if token in quotes then Remembered(up, token, now, quotes[token]) else up
  }

  function Unforgetting(ticks: seq<Moment>): State {
    if ticks == [] then Empty
    else
      var st, m := Unforgetting(ticks[..|ticks| - 1]), ticks[|ticks| - 1];
      if !Answered(m.quotes, Tokens) then st
      else StepAll(RememberAll(st, m.now, m.quotes, Tokens), m.now, m.quotes, Tokens)
  }

  ghost predicate Forgot(xs: seq<Sample>, all: seq<Sample>, now: int) {
    exists c :: c <= Unix(now - KeepSamples) && xs == Trim(all, c)
  }

  ghost predicate Dropped(alerts: seq<Rec>, all: seq<Rec>, now: int) {
    exists c :: c <= now - KeepAlerts && alerts == Since(all, c)
  }

  /** The same but for what is too old to matter. */
  ghost predicate Alike(st: State, full: State, now: int) {
    && st.prevHit == full.prevHit && st.nextId == full.nextId && st.log == full.log == full.alerts
    && Dropped(st.alerts, full.alerts, now)
    && forall token :: Forgot(SamplesOf(st, token), SamplesOf(full, token), now)
  }

  lemma AlikeLater(st: State, full: State, now: int, later: int)
    requires Alike(st, full, now) && now <= later
    ensures Alike(st, full, later)
  {
    forall token ensures Forgot(SamplesOf(st, token), SamplesOf(full, token), later) {
      assert Forgot(SamplesOf(st, token), SamplesOf(full, token), now);
      var c :| c <= Unix(now - KeepSamples) && SamplesOf(st, token) == Trim(SamplesOf(full, token), c);
    }
    var c :| c <= now - KeepAlerts && st.alerts == Since(full.alerts, c);
  }

  // ---- old alerts do not matter --------------------------------------------------------------

  lemma SinceSnoc(alerts: seq<Rec>, a: Rec, cut: int)
    ensures Since(alerts + [a], cut) == if a.t > cut then Since(alerts, cut) + [a] else Since(alerts, cut)
  {
    assert (alerts + [a])[..|alerts|] == alerts;
  }

  lemma {:induction false} SinceTwice(alerts: seq<Rec>, c: int, d: int)
    requires c <= d
    ensures Since(Since(alerts, c), d) == Since(alerts, d)
  {
    if alerts != [] {
      var front, a := alerts[..|alerts| - 1], alerts[|alerts| - 1];
      SinceTwice(front, c, d);
      SinceSnoc(Since(front, c), a, d);
    }
  }

  lemma {:induction false} RecentSince(alerts: seq<Rec>, cut: int, token: string, now: int)
    requires cut <= now - 24 * Hour
    ensures Recent(Since(alerts, cut), token, now) == Recent(alerts, token, now)
  {
    if alerts != [] {
      var front, a := alerts[..|alerts| - 1], alerts[|alerts| - 1];
      RecentSince(front, cut, token, now);
      assert (Since(front, cut) + [a])[..|Since(front, cut)|] == Since(front, cut);
    }
  }

  lemma LastSnoc(alerts: seq<Rec>, a: Rec, token: string)
    ensures var l := Last(alerts, token);
      Last(alerts + [a], token) == if a.token == token && (l.None? || a.t > l.value.t) then Some(a) else l
  {
    assert (alerts + [a])[..|alerts|] == alerts;
  }

  lemma {:induction false} LastSince(alerts: seq<Rec>, cut: int, token: string)
    ensures var l := Last(alerts, token);
      Last(Since(alerts, cut), token) == if l.Some? && l.value.t > cut then l else None
  {
    if alerts != [] {
      var front, a := alerts[..|alerts| - 1], alerts[|alerts| - 1];
      LastSince(front, cut, token);
      if a.t > cut {
        LastSnoc(Since(front, cut), a, token);
      }
    }
  }

  lemma {:induction false} UnreportedSince(alerts: seq<Rec>, cut: int, token: string, now: int, recent: seq<Rec>)
    requires cut <= now - 24 * Hour
    ensures Unreported(Since(alerts, cut), token, now, recent) == Unreported(alerts, token, now, recent)
  {
    if alerts != [] {
      var front, a := alerts[..|alerts| - 1], alerts[|alerts| - 1];
      UnreportedSince(front, cut, token, now, recent);
      assert (Since(front, cut) + [a])[..|Since(front, cut)|] == Since(front, cut);
    }
  }

  lemma BlockedSince(alerts: seq<Rec>, cut: int, token: string, p: Price, now: int, rule: Rule)
    requires cut <= now - 24 * Hour
    ensures Blocked(Last(Since(alerts, cut), token), p, now, rule) == Blocked(Last(alerts, token), p, now, rule)
  {
    LastSince(alerts, cut, token);
  }

  // ---- old samples do not matter ---------------------------------------------------------------

  lemma {:induction false} TrimLast(xs: seq<Sample>, cut: int)
    ensures Trim(xs, cut) != [] ==> xs != [] && Trim(xs, cut)[|Trim(xs, cut)| - 1] == xs[|xs| - 1]
    ensures xs != [] && xs[|xs| - 1].t >= cut ==> Trim(xs, cut) != []
  {
    if xs != [] && xs[0].t < cut {
      TrimLast(xs[1..], cut);
    }
  }

  lemma ForgotSame(xs: seq<Sample>, all: seq<Sample>, token: string, now: int)
    requires Forgot(xs, all, now)
    ensures Sampled(xs, token, now) == Sampled(all, token, now)
    ensures Sampled(xs, token, now) ==> xs[|xs| - 1] == all[|all| - 1]
    ensures Near(xs, Unix(now - Hour)) == Near(all, Unix(now - Hour))
    ensures Near(xs, Unix(now - 24 * Hour)) == Near(all, Unix(now - 24 * Hour))
  {
    var c :| c <= Unix(now - KeepSamples) && xs == Trim(all, c);
    TrimLast(all, c);
    TrimInvisible(all, c, Unix(now - Hour));
    TrimInvisible(all, c, Unix(now - 24 * Hour));
  }

  lemma HitSame(xs: seq<Sample>, all: seq<Sample>, alerts: seq<Rec>, every: seq<Rec>, token: string, now: int)
    requires Forgot(xs, all, now) && Dropped(alerts, every, now) && Sampled(all, token, now)
    ensures Sampled(xs, token, now) && HitNow(xs, alerts, token, now) == HitNow(all, every, token, now)
  {
    ForgotSame(xs, all, token, now);
    var c :| c <= now - KeepAlerts && alerts == Since(every, c);
    RecentSince(every, c, token, now);
  }

  lemma DecideSamples(xs: seq<Sample>, all: seq<Sample>, alerts: seq<Rec>, token: string, now: int, id: int)
    requires Forgot(xs, all, now)
    requires Sampled(all, token, now) && HitNow(all, alerts, token, now)
    requires Sampled(xs, token, now) && HitNow(xs, alerts, token, now)
    ensures Decide(xs, alerts, token, now, id) == Decide(all, alerts, token, now, id)
  {
    ForgotSame(xs, all, token, now);
  }

  lemma DecideAlerts(all: seq<Sample>, alerts: seq<Rec>, every: seq<Rec>, token: string, now: int, id: int)
    requires Dropped(alerts, every, now) && Sampled(all, token, now)
    requires HitNow(all, every, token, now) && HitNow(all, alerts, token, now)
    ensures Decide(all, alerts, token, now, id) == Decide(all, every, token, now, id)
  {
    var c :| c <= now - KeepAlerts && alerts == Since(every, c);
    RecentSince(every, c, token, now);
    UnreportedSince(every, c, token, now, Recent(every, token, now));
    BlockedSince(every, c, token, all[|all| - 1].p, now, RuleOf(token).value);
  }

  lemma ForgotNothing(xs: seq<Sample>, now: int)
    ensures Forgot(xs, xs, now)
  {
    var c := if xs == [] || Unix(now - KeepSamples) <= xs[0].t then Unix(now - KeepSamples) else xs[0].t;
    assert xs == Trim(xs, c);
  }

  lemma DecideSame(xs: seq<Sample>, all: seq<Sample>, alerts: seq<Rec>, every: seq<Rec>, token: string, now: int,
      id: int)
    requires Forgot(xs, all, now) && Dropped(alerts, every, now)
    requires Sampled(all, token, now) && HitNow(all, every, token, now)
    requires Sampled(xs, token, now) && HitNow(xs, alerts, token, now)
    ensures Decide(xs, alerts, token, now, id) == Decide(all, every, token, now, id)
  {
    ForgotNothing(all, now);
    HitSame(all, all, alerts, every, token, now);
    DecideSamples(xs, all, alerts, token, now, id);
    DecideAlerts(all, alerts, every, token, now, id);
  }

  lemma DroppedSnoc(alerts: seq<Rec>, every: seq<Rec>, r: Rec, now: int)
    requires Dropped(alerts, every, now) && r.t == now
    ensures Dropped(alerts + [r], every + [r], now)
  {
    var c :| c <= now - KeepAlerts && alerts == Since(every, c);
    SinceSnoc(every, r, c);
  }

  lemma NotedAlike(st: State, full: State, token: string, hit: bool, move: Option<Rec>, now: int)
    requires Alike(st, full, now) && (move.Some? ==> move.value.t == now)
    ensures Alike(Noted(st, token, hit, move), Noted(full, token, hit, move), now)
  {
    var a, b := Noted(st, token, hit, move), Noted(full, token, hit, move);
    if move.Some? {
      DroppedSnoc(st.alerts, full.alerts, move.value, now);
    }
    forall x ensures Forgot(SamplesOf(a, x), SamplesOf(b, x), now) {
      assert Forgot(SamplesOf(st, x), SamplesOf(full, x), now);
    }
  }

  lemma StepAlike(st: State, full: State, token: string, now: int)
    requires Alike(st, full, now)
    ensures Alike(Stepped(st, token, now), Stepped(full, token, now), now)
  {
    var xs, all := SamplesOf(st, token), SamplesOf(full, token);
    ForgotSame(xs, all, token, now);
    if Sampled(all, token, now) {
      HitSame(xs, all, st.alerts, full.alerts, token, now);
      if HitNow(all, full.alerts, token, now) {
        DecideSame(xs, all, st.alerts, full.alerts, token, now, st.nextId);
        NotedAlike(st, full, token, true, Decide(all, full.alerts, token, now, st.nextId), now);
      } else {
        NotedAlike(st, full, token, false, None, now);
      }
    }
  }

  lemma {:induction false} StepAllAlike(st: State, full: State, now: int, quotes: Quotes, tokens: seq<string>)
    requires Alike(st, full, now)
    ensures Alike(StepAll(st, now, quotes, tokens), StepAll(full, now, quotes, tokens), now)
    decreases |tokens|
  {
    if tokens != [] {
      var front, token := tokens[..|tokens| - 1], tokens[|tokens| - 1];
      StepAllAlike(st, full, now, quotes, front);
      StepAlike(StepAll(st, now, quotes, front), StepAll(full, now, quotes, front), token, now);
    }
  }

  lemma RecordAlike(st: State, full: State, token: string, now: int, p: Price)
    requires Alike(st, full, now)
    ensures Alike(Recorded(st, token, now, p), Remembered(full, token, now, p), now)
  {
    var a, b, x := Recorded(st, token, now, p), Remembered(full, token, now, p), Sample(Unix(now), p);
    forall other ensures Forgot(SamplesOf(a, other), SamplesOf(b, other), now) {
      assert Forgot(SamplesOf(st, other), SamplesOf(full, other), now);
      if other == token {
        var c :| c <= Unix(now - KeepSamples) && SamplesOf(st, token) == Trim(SamplesOf(full, token), c);
        TrimTwice(SamplesOf(full, token), x, c, Unix(now - KeepSamples));
      }
    }
  }

  lemma {:induction false} RecordAllAlike(st: State, full: State, now: int, quotes: Quotes, tokens: seq<string>)
    requires Alike(st, full, now)
    ensures Alike(RecordAll(st, now, quotes, tokens), RememberAll(full, now, quotes, tokens), now)
    decreases |tokens|
  {
    if tokens != [] {
      var front, token := tokens[..|tokens| - 1], tokens[|tokens| - 1];
      RecordAllAlike(st, full, now, quotes, front);
      if token in quotes {
        RecordAlike(RecordAll(st, now, quotes, front), RememberAll(full, now, quotes, front), token, now,
            quotes[token]);
      }
    }
  }

  lemma PruneAlike(st: State, full: State, now: int)
    requires Alike(st, full, now)
    ensures Alike(st.(alerts := Since(st.alerts, now - KeepAlerts)), full, now)
  {
    var up := st.(alerts := Since(st.alerts, now - KeepAlerts));
    var c :| c <= now - KeepAlerts && st.alerts == Since(full.alerts, c);
    SinceTwice(full.alerts, c, now - KeepAlerts);
    forall x ensures Forgot(SamplesOf(up, x), SamplesOf(full, x), now) {
      assert Forgot(SamplesOf(st, x), SamplesOf(full, x), now);
    }
  }

  lemma EmptyAlike(now: int)
    ensures Alike(Empty, Empty, now)
  {
    assert Since([], now - KeepAlerts) == [];
    forall token ensures Forgot(SamplesOf(Empty, token), SamplesOf(Empty, token), now) {
      assert Trim([], Unix(now - KeepSamples)) == [];
    }
  }

  lemma {:induction false} RunAlike(ticks: seq<Moment>)
    requires Clocked(ticks) && ticks != []
    ensures Alike(Run(ticks), Unforgetting(ticks), ticks[|ticks| - 1].now)
    decreases |ticks|
  {
    var front, m := ticks[..|ticks| - 1], ticks[|ticks| - 1];
    if front == [] {
      EmptyAlike(m.now);
    } else {
      RunAlike(front);
      AlikeLater(Run(front), Unforgetting(front), front[|front| - 1].now, m.now);
    }
    var st, full := Run(front), Unforgetting(front);
    if Answered(m.quotes, Tokens) {
      RecordAllAlike(st, full, m.now, m.quotes, Tokens);
      var a, b := RecordAll(st, m.now, m.quotes, Tokens), RememberAll(full, m.now, m.quotes, Tokens);
      StepAllAlike(a, b, m.now, m.quotes, Tokens);
      PruneAlike(StepAll(a, m.now, m.quotes, Tokens), StepAll(b, m.now, m.quotes, Tokens), m.now);
    }
  }

  /** Keeping 25 hours of samples and 48 hours of alerts records exactly what keeping them all
      would: pruning never changes a decision. */
  lemma PruningChangesNothing(ticks: seq<Moment>)
    requires Clocked(ticks)
    ensures Run(ticks).log == Unforgetting(ticks).log
  {
    if ticks != [] {
      RunAlike(ticks);
    }
  }

  // ---- how often it speaks ------------------------------------------------------------------

  function OfToken(log: seq<Rec>, token: string): seq<Rec> {
    if log == [] then []
    else
      var a := log[|log| - 1];
      var earlier := OfToken(log[..|log| - 1], token);
      if a.token == token then earlier + [a] else earlier
  }

  function Delivered(log: seq<Rec>, token: string): seq<Rec> {
    if log == [] then []
    else
      var a := log[|log| - 1];
      var earlier := Delivered(log[..|log| - 1], token);
      if a.token == token && !a.heldBack then earlier + [a] else earlier
  }

  /** Any two alerts of a token are half an hour apart. */
  ghost predicate Spaced(rs: seq<Rec>) {
    forall i, j :: 0 <= i < j < |rs| ==> rs[j].t - rs[i].t >= 1_800_000_000_000
  }

  /** In no day, wherever it starts, are more than four delivered. */
  ghost predicate FourADay(rs: seq<Rec>) {
    forall i, j :: 0 <= i && i + 4 <= j < |rs| ==> rs[j].t - rs[i].t >= 86_400_000_000_000
  }

  ghost predicate Until(rs: seq<Rec>, now: int) {
    (forall i :: 0 <= i < |rs| ==> rs[i].t <= now) && forall i, j :: 0 <= i < j < |rs| ==> rs[i].t <= rs[j].t
  }

  ghost predicate Limited(log: seq<Rec>, token: string, now: int) {
    Spaced(OfToken(log, token)) && Until(OfToken(log, token), now)
    && FourADay(Delivered(log, token)) && Until(Delivered(log, token), now)
  }

  lemma Snocs(log: seq<Rec>, r: Rec, token: string)
    ensures OfToken(log + [r], token) == if r.token == token then OfToken(log, token) + [r] else OfToken(log, token)
    ensures Delivered(log + [r], token)
         == if r.token == token && !r.heldBack then Delivered(log, token) + [r] else Delivered(log, token)
  {
    assert (log + [r])[..|log|] == log;
  }

  lemma {:induction false} LastIsLast(log: seq<Rec>, token: string)
    requires Spaced(OfToken(log, token))
    ensures var rs := OfToken(log, token);
      Last(log, token) == if rs == [] then None else Some(rs[|rs| - 1])
  {
    if log != [] {
      var front, a := log[..|log| - 1], log[|log| - 1];
      var rs, fs := OfToken(log, token), OfToken(front, token);
      assert forall i :: 0 <= i < |fs| ==> fs[i] == rs[i];
      LastIsLast(front, token);
      assert a.token == token && fs != [] ==> rs[|fs|].t - rs[|fs| - 1].t >= Cooldown;
    }
  }

  lemma {:induction false} RecentAtLeast(log: seq<Rec>, token: string, now: int, n: nat)
    requires n <= |Delivered(log, token)|
    requires forall i :: |Delivered(log, token)| - n <= i < |Delivered(log, token)| ==>
        Fresh(Delivered(log, token)[i], now)
    ensures |Recent(log, token, now)| >= n
    decreases |log|
  {
    if log != [] && n > 0 {
      var front, a := log[..|log| - 1], log[|log| - 1];
      var ds, fs := Delivered(log, token), Delivered(front, token);
      assert forall i :: 0 <= i < |fs| ==> fs[i] == ds[i];
      if a.token == token && !a.heldBack {
        assert ds[|ds| - 1] == a && Fresh(ds[|ds| - 1], now);
        RecentAtLeast(front, token, now, n - 1);
      } else {
        RecentAtLeast(front, token, now, n);
      }
    }
  }

  lemma SpacedSnoc(rs: seq<Rec>, r: Rec)
    requires Spaced(rs) && Until(rs, r.t) && (rs != [] ==> r.t - rs[|rs| - 1].t >= Cooldown)
    ensures Spaced(rs + [r]) && Until(rs + [r], r.t)
  {
    forall i | 0 <= i < |rs| ensures r.t - rs[i].t >= Cooldown {
      assert rs[i].t <= rs[|rs| - 1].t;
    }
  }

  lemma DeliveredSnoc(log: seq<Rec>, r: Rec, token: string)
    requires FourADay(Delivered(log, token)) && Until(Delivered(log, token), r.t) && |Recent(log, token, r.t)| < Cap
    ensures FourADay(Delivered(log, token) + [r]) && Until(Delivered(log, token) + [r], r.t)
  {
    var ds := Delivered(log, token);
    forall i | 0 <= i && i + Cap <= |ds| ensures r.t - ds[i].t >= 24 * Hour {
      if Fresh(ds[i], r.t) {
        forall k | i <= k < |ds| ensures Fresh(ds[k], r.t) {
          assert ds[i].t <= ds[k].t;
        }
        RecentAtLeast(log, token, r.t, Cap);
      }
    }
  }

  lemma RecordLimited(log: seq<Rec>, r: Rec, token: string)
    requires Limited(log, token, r.t)
    requires r.token == token ==> (Last(log, token).Some? ==> r.t - Last(log, token).value.t >= Cooldown)
    requires r.token == token && !r.heldBack ==> |Recent(log, token, r.t)| < Cap
    ensures Limited(log + [r], token, r.t)
  {
    Snocs(log, r, token);
    if r.token == token {
      LastIsLast(log, token);
      SpacedSnoc(OfToken(log, token), r);
      if !r.heldBack {
        DeliveredSnoc(log, r, token);
      }
    }
  }

  lemma StepLimited(st: State, token: string, now: int, other: string)
    requires st.alerts == st.log && Limited(st.log, other, now)
    ensures Stepped(st, token, now).alerts == Stepped(st, token, now).log
    ensures Limited(Stepped(st, token, now).log, other, now)
  {
    var xs := SamplesOf(st, token);
    if Sampled(xs, token, now) && HitNow(xs, st.alerts, token, now) {
      var move := Decide(xs, st.alerts, token, now, st.nextId);
      if move.Some? {
        NotBlocked(xs, st.alerts, token, now, st.nextId);
        RecordLimited(st.log, move.value, other);
      }
    }
  }

  lemma NotBlocked(xs: seq<Sample>, alerts: seq<Rec>, token: string, now: int, id: int)
    requires Sampled(xs, token, now) && HitNow(xs, alerts, token, now) && Decide(xs, alerts, token, now, id).Some?
    ensures Last(alerts, token).Some? ==> now - Last(alerts, token).value.t >= Cooldown
  {
  }

  lemma {:induction false} StepAllLimited(st: State, now: int, quotes: Quotes, tokens: seq<string>, other: string)
    requires st.alerts == st.log && Limited(st.log, other, now)
    ensures StepAll(st, now, quotes, tokens).alerts == StepAll(st, now, quotes, tokens).log
    ensures Limited(StepAll(st, now, quotes, tokens).log, other, now)
    decreases |tokens|
  {
    if tokens != [] {
      StepAllLimited(st, now, quotes, tokens[..|tokens| - 1], other);
      StepLimited(StepAll(st, now, quotes, tokens[..|tokens| - 1]), tokens[|tokens| - 1], now, other);
    }
  }

  lemma {:induction false} RememberKeepsLog(st: State, now: int, quotes: Quotes, tokens: seq<string>)
    ensures RememberAll(st, now, quotes, tokens).alerts == st.alerts
        && RememberAll(st, now, quotes, tokens).log == st.log
    decreases |tokens|
  {
    if tokens != [] {
      RememberKeepsLog(st, now, quotes, tokens[..|tokens| - 1]);
    }
  }

  lemma {:induction false} UnforgettingLimited(ticks: seq<Moment>, token: string)
    requires Clocked(ticks) && ticks != []
    ensures Unforgetting(ticks).alerts == Unforgetting(ticks).log
    ensures Limited(Unforgetting(ticks).log, token, ticks[|ticks| - 1].now)
    decreases |ticks|
  {
    var front, m := ticks[..|ticks| - 1], ticks[|ticks| - 1];
    if front != [] {
      UnforgettingLimited(front, token);
      assert front[|front| - 1].now <= m.now;
    }
    var st := Unforgetting(front);
    assert Limited(st.log, token, m.now);
    RememberKeepsLog(st, m.now, m.quotes, Tokens);
    StepAllLimited(RememberAll(st, m.now, m.quotes, Tokens), m.now, m.quotes, Tokens, token);
  }

  /** Over any run with a clock that does not go back, and for every token: any two recorded
      alerts are at least 30 minutes apart, and of the delivered ones any five span 24 hours
      or more. */
  lemma AlertsAreLimited(ticks: seq<Moment>, token: string)
    requires Clocked(ticks)
    ensures Spaced(OfToken(Run(ticks).log, token)) && FourADay(Delivered(Run(ticks).log, token))
  {
    if ticks != [] {
      RunAlike(ticks);
      UnforgettingLimited(ticks, token);
    }
  }

  /** A hit: the price is by the token's threshold, in percent either way, from what it was an hour
      or a day ago. */
  predicate Moved(xs: seq<Sample>, p: Price, now: int, back: int, threshold: real) {
    match Near(xs, Unix(now - back))
    case None => false
    case Some(past) => Pct(p, past.p) >= threshold || Pct(p, past.p) <= -threshold
  }

  /** Exactly when a token gets a new record: it has a sample of this very second that is a hit, the
      minute before was one too, the last alert is half an hour back, and if that is of the last day
      the price is a full hourly threshold away from it. */
  lemma RecordedIff(st: State, token: string, now: int)
    ensures Stepped(st, token, now).log != st.log <==>
      var xs, rule, last := SamplesOf(st, token), RuleOf(token), Last(st.alerts, token);
      && rule.Some? && xs != [] && xs[|xs| - 1].t == Unix(now) && WasHit(st, token)
      && var p, n := xs[|xs| - 1].p, |Recent(st.alerts, token, now)|;
         && (|| Moved(xs, p, now, 3_600_000_000_000, Escalated(n, rule.value.hour))
             || Moved(xs, p, now, 86_400_000_000_000, Escalated(n, rule.value.day)))
         && (last.Some? ==>
              && now - last.value.t >= 1_800_000_000_000
              && (now - last.value.t < 86_400_000_000_000 ==>
                   var away := Pct(p, last.value.price);
                   away >= rule.value.hour || away <= -rule.value.hour))
  {
    var xs := SamplesOf(st, token);
    if Sampled(xs, token, now) {
      HitIff(xs, st.alerts, token, now);
    }
  }

  lemma HitIff(xs: seq<Sample>, alerts: seq<Rec>, token: string, now: int)
    requires Sampled(xs, token, now)
    ensures var p, rule, n := xs[|xs| - 1].p, RuleOf(token).value, |Recent(alerts, token, now)|;
      HitNow(xs, alerts, token, now) <==>
        || Moved(xs, p, now, 3_600_000_000_000, Escalated(n, rule.hour))
        || Moved(xs, p, now, 86_400_000_000_000, Escalated(n, rule.day))
  {
    var p, rule, n := xs[|xs| - 1].p, RuleOf(token).value, |Recent(alerts, token, now)|;
    MovedIff(xs, p, now, Hour, Escalated(n, rule.hour));
    MovedIff(xs, p, now, 24 * Hour, Escalated(n, rule.day));
  }

  /** Whether this minute was a hit is what the next one asks. */
  lemma HitIsNoted(st: State, token: string, now: int)
    ensures var xs := SamplesOf(st, token);
      WasHit(Stepped(st, token, now), token)
      == if Sampled(xs, token, now) then HitNow(xs, st.alerts, token, now) else WasHit(st, token)
  {
  }

  /** The price is the token's latest; it has moved from the one an hour ago by the threshold the
      day's alerts call for, or else from the one a day ago, and that is the change reported. */
  ghost predicate OfTheMove(xs: seq<Sample>, recent: seq<Rec>, now: int, rule: Rule, r: Rec) {
    xs != []
    && (var past := if r.hourly then Near(xs, Unix(now - Hour)) else Near(xs, Unix(now - 24 * Hour));
        && r.price == xs[|xs| - 1].p && (r.hourly <==> Moved(xs, r.price, now, Hour, Escalated(|recent|, rule.hour)))
        && past.Some? && r.from == past.value.p && r.change == Pct(r.price, r.from))
  }

  /** The day's change, the alert's rank in the day, held back exactly when four were delivered in
      the day before, and otherwise the number of those held back since the last delivered one. */
  ghost predicate OfTheDay(xs: seq<Sample>, alerts: seq<Rec>, recent: seq<Rec>, token: string, now: int, r: Rec) {
    var day := Near(xs, Unix(now - 24 * Hour));
    && (if day.Some? then r.day == Pct(r.price, day.value.p) else r.day == 0.0)
    && r.k == |recent| + 1 && (r.heldBack <==> |recent| >= 4)
    && r.unreported == if r.heldBack then 0 else |HeldAt(alerts, token, now, recent)|
  }

  /** The record of a move, in the samples and the alerts there are. */
  ghost predicate Qualifies(xs: seq<Sample>, alerts: seq<Rec>, token: string, now: int, r: Rec) {
    RuleOf(token).Some? && r.t == now && r.token == token
    && !Blocked(Last(alerts, token), r.price, now, RuleOf(token).value)
    && OfTheMove(xs, Recent(alerts, token, now), now, RuleOf(token).value, r)
    && OfTheDay(xs, alerts, Recent(alerts, token, now), token, now, r)
  }

  lemma DecideQualifies(xs: seq<Sample>, alerts: seq<Rec>, token: string, now: int, id: int)
    requires Sampled(xs, token, now) && HitNow(xs, alerts, token, now) && Decide(xs, alerts, token, now, id).Some?
    ensures Qualifies(xs, alerts, token, now, Decide(xs, alerts, token, now, id).value)
  {
    DecideMove(xs, alerts, token, now, id);
    DecideDay(xs, alerts, token, now, id);
  }

  /** The move by the samples an hour and a day back. */
  predicate ByNear(xs: seq<Sample>, n: nat, now: int, rule: Rule, r: Rec) {
    xs != []
    && (var hour, day := Near(xs, Unix(now - Hour)), Near(xs, Unix(now - 24 * Hour));
        var past := if r.hourly then hour else day;
        && r.price == xs[|xs| - 1].p && (r.hourly <==> Hit(r.price, hour, Escalated(n, rule.hour)))
        && past.Some? && r.from == past.value.p && r.change == Pct(r.price, r.from))
  }

  lemma DecideByNear(xs: seq<Sample>, alerts: seq<Rec>, token: string, now: int, id: int)
    requires Sampled(xs, token, now) && HitNow(xs, alerts, token, now) && Decide(xs, alerts, token, now, id).Some?
    ensures var n := |Recent(alerts, token, now)|;
      ByNear(xs, n, now, RuleOf(token).value, Decide(xs, alerts, token, now, id).value)
  {
  }

  lemma NearIsMove(xs: seq<Sample>, recent: seq<Rec>, now: int, rule: Rule, r: Rec)
    requires ByNear(xs, |recent|, now, rule, r)
    ensures OfTheMove(xs, recent, now, rule, r)
  {
    MovedIff(xs, r.price, now, Hour, Escalated(|recent|, rule.hour));
  }

  lemma DecideMove(xs: seq<Sample>, alerts: seq<Rec>, token: string, now: int, id: int)
    requires Sampled(xs, token, now) && HitNow(xs, alerts, token, now) && Decide(xs, alerts, token, now, id).Some?
    ensures var recent := Recent(alerts, token, now);
      OfTheMove(xs, recent, now, RuleOf(token).value, Decide(xs, alerts, token, now, id).value)
  {
    DecideByNear(xs, alerts, token, now, id);
    var r := Decide(xs, alerts, token, now, id).value;
    NearIsMove(xs, Recent(alerts, token, now), now, RuleOf(token).value, r);
  }

  lemma DecideDay(xs: seq<Sample>, alerts: seq<Rec>, token: string, now: int, id: int)
    requires Sampled(xs, token, now) && HitNow(xs, alerts, token, now) && Decide(xs, alerts, token, now, id).Some?
    ensures OfTheDay(xs, alerts, Recent(alerts, token, now), token, now, Decide(xs, alerts, token, now, id).value)
  {
    UnreportedCounts(alerts, token, now, Recent(alerts, token, now));
  }

  lemma MovedIff(xs: seq<Sample>, p: Price, now: int, back: int, threshold: real)
    ensures Moved(xs, p, now, back, threshold) <==> Hit(p, Near(xs, Unix(now - back)), threshold)
  {
  }

  /** A token that gets a new record was a hit the minute before too, and the move qualifies. */
  lemma RecordQualifies(st: State, token: string, now: int)
    requires Stepped(st, token, now).log != st.log
    ensures WasHit(st, token) && exists r :: Stepped(st, token, now).log == st.log + [r] && r.id == st.nextId
                                             && Qualifies(SamplesOf(st, token), st.alerts, token, now, r)
  {
    var xs := SamplesOf(st, token);
    var move := Decide(xs, st.alerts, token, now, st.nextId);
    DecideQualifies(xs, st.alerts, token, now, st.nextId);
    assert Stepped(st, token, now).log == st.log + [move.value];
  }
}
