/** The price alerts' limiter (internal/server/alerts.go). Times are nanoseconds; prices and
    percentages are reals. */
module Alerts {
  import opened Base

  const Second: int := 1_000_000_000
  const Minute: int := 60 * Second
  const Hour: int := 60 * Minute
  const Cap := 4
  const Cooldown: int := 30 * Minute
  const KeepSamples: int := 25 * Hour
  const KeepAlerts: int := 48 * Hour
  /** Seconds. */
  const Tolerance := 180

  type Price = p: real | p > 0.0 witness 1.0

  /** A price at a Unix second. */
  datatype Sample = Sample(t: int, p: Price)

  /** A move that qualified, delivered or held back by the cap. */
  datatype Rec = Rec(id: int, t: int, token: string, hourly: bool, change: real, price: Price, from: Price,
                     day: real, k: int, heldBack: bool, unreported: nat)

  datatype Rule = Rule(hour: real, day: real)

  function RuleOf(token: string): Option<Rule> {
    if token == "SOL" then Some(Rule(2.5, 6.0))
    else if token == "PUMP" then Some(Rule(5.0, 12.0))
    else if token == "MET" then Some(Rule(6.0, 15.0))
    else if token == "SKR" then Some(Rule(8.0, 25.0))
    else None
  }

  const Tokens := ["SOL", "PUMP", "MET", "SKR"]

  /** The day's later alerts need 1, 1.5, then 2 times the threshold. */
  function Escalated(recent: nat, threshold: real): real {
    if recent == 0 then threshold else if recent == 1 then 1.5 * threshold else 2.0 * threshold
  }

  function Unix(now: int): int {
    now / Second
  }

  function Pct(now: Price, past: Price): real {
    (now / past - 1.0) * 100.0
  }

  function Abs(x: real): real {
    if x < 0.0 then -x else x
  }

  // ---- samples -----------------------------------------------------------------------------

  function Distance(x: Sample, want: int): nat {
    if x.t < want then want - x.t else x.t - want
  }

  ghost predicate Ordered(xs: seq<Sample>) {
    forall i, j :: 0 <= i < j < |xs| ==> xs[i].t <= xs[j].t
  }

  function Trim(xs: seq<Sample>, cut: int): seq<Sample> {
    if xs != [] && xs[0].t < cut then Trim(xs[1..], cut) else xs
  }

  function FirstFrom(xs: seq<Sample>, want: int): (i: nat)
    ensures i <= |xs| && (i < |xs| ==> xs[i].t >= want) && forall j :: 0 <= j < i ==> xs[j].t < want
  {
    if xs == [] || xs[0].t >= want then 0 else 1 + FirstFrom(xs[1..], want)
  }

  function Closer(best: Option<Sample>, x: Sample, want: int): Option<Sample> {
    if best.None? || Distance(x, want) < Distance(best.value, want) then Some(x) else best
  }

  function Within(best: Option<Sample>, want: int): Option<Sample> {
    if best.None? || Distance(best.value, want) > Tolerance then None else best
  }

  /** The sample before the first from want on, or that one if it is closer. */
  function Near(xs: seq<Sample>, want: int): Option<Sample> {
    var i := FirstFrom(xs, want);
    var best := if i > 0 then Some(xs[i - 1]) else None;
    Within(if i < |xs| then Closer(best, xs[i], want) else best, want)
  }

  /** On samples in time order the two looked at are enough: no sample is closer, and none
      is within tolerance when there is none to give. */
  lemma NearIsNearest(xs: seq<Sample>, want: int, x: Sample)
    requires Ordered(xs) && x in xs
    ensures match Near(xs, want)
            case Some(s) => s in xs && Distance(s, want) <= 180 && Distance(s, want) <= Distance(x, want)
            case None => Distance(x, want) > 180
  {
    var i := FirstFrom(xs, want);
    var k :| 0 <= k < |xs| && xs[k] == x;
    assert k < i ==> xs[k].t <= xs[i - 1].t < want;
    assert k > i ==> want <= xs[i].t <= xs[k].t;
  }

  /** Dropping what is far before want changes nothing. */
  lemma {:induction false} TrimInvisible(xs: seq<Sample>, cut: int, want: int)
    requires cut <= want - Tolerance
    ensures Near(Trim(xs, cut), want) == Near(xs, want)
  {
    if xs != [] && xs[0].t < cut {
      TrimInvisible(xs[1..], cut, want);
      assert FirstFrom(xs, want) == 1 + FirstFrom(xs[1..], want);
    }
  }

  lemma {:induction false} TrimTwice(xs: seq<Sample>, x: Sample, c: int, d: int)
    requires c <= d <= x.t
    ensures Trim(Trim(xs, c) + [x], d) == Trim(xs + [x], d)
  {
    if xs != [] && xs[0].t < c {
      TrimTwice(xs[1..], x, c, d);
      assert (xs + [x])[1..] == xs[1..] + [x];
    }
  }

  method AppendSample(xs: seq<Sample>, x: Sample, now: int) returns (out: seq<Sample>)
    ensures out == Trim(xs + [x], Unix(now - KeepSamples))
  {
    var all := xs + [x];
    var cut := Unix(now - KeepSamples);
    var i := 0;
    assert all[0..] == all;
    while i < |all| && all[i].t < cut
      invariant 0 <= i <= |all| && Trim(all[i..], cut) == Trim(all, cut)
    {
      assert all[i..][1..] == all[i + 1..];
      i := i + 1;
    }
    out := all[i..];
  }

  /** sort.Search, then the two candidates. */
  method SampleNear(xs: seq<Sample>, want: int) returns (best: Option<Sample>)
    requires Ordered(xs)
    ensures best == Near(xs, want)
  {
    var lo, hi := 0, |xs|;
    while lo < hi
      invariant 0 <= lo <= hi <= |xs|
      invariant (forall j :: 0 <= j < lo ==> xs[j].t < want) && forall j :: hi <= j < |xs| ==> xs[j].t >= want
    {
      var mid := (lo + hi) / 2;
      if xs[mid].t < want {
        lo := mid + 1;
      } else {
        hi := mid;
      }
    }
    best := None;
    if 0 < lo {
      best := Some(xs[lo - 1]);
    }
    if lo < |xs| {
      best := Closer(best, xs[lo], want);
    }
    if best == None || Distance(best.value, want) > Tolerance {
      return None;
    }
  }

  // ---- recorded alerts ----------------------------------------------------------------------

  predicate Fresh(a: Rec, now: int) {
    now - a.t < 24 * Hour
  }

  /** Delivered within the sliding day. */
  function Recent(alerts: seq<Rec>, token: string, now: int): seq<Rec> {
    if alerts == [] then []
    else
      var a := alerts[|alerts| - 1];
      var earlier := Recent(alerts[..|alerts| - 1], token, now);
      if a.token == token && !a.heldBack && Fresh(a, now) then earlier + [a] else earlier
  }

  /** The newest, delivered or held back. */
  function Last(alerts: seq<Rec>, token: string): Option<Rec> {
    if alerts == [] then None
    else
      var l, a := Last(alerts[..|alerts| - 1], token), alerts[|alerts| - 1];
      if a.token == token && (l.None? || a.t > l.value.t) then Some(a) else l
  }

  /** Held back within the day since the last delivered one. */
  function Unreported(alerts: seq<Rec>, token: string, now: int, recent: seq<Rec>): nat {
    if alerts == [] then 0
    else
      var a := alerts[|alerts| - 1];
      Unreported(alerts[..|alerts| - 1], token, now, recent)
      + if a.token == token && a.heldBack && Fresh(a, now)
          && (recent == [] || a.t > recent[|recent| - 1].t) then 1 else 0
  }

  /** Of all records kept, the moves that were held back within the day and since the last delivered
      alert, each once. */
  ghost predicate HeldSince(a: Rec, token: string, now: int, recent: seq<Rec>) {
    a.token == token && a.heldBack && now - a.t < 86_400_000_000_000
    && (recent != [] ==> recent[|recent| - 1].t < a.t)
  }

  ghost function HeldAt(alerts: seq<Rec>, token: string, now: int, recent: seq<Rec>): set<nat> {
    set i: nat | i < |alerts| && HeldSince(alerts[i], token, now, recent)
  }

  lemma {:induction false} UnreportedCounts(alerts: seq<Rec>, token: string, now: int, recent: seq<Rec>)
    ensures Unreported(alerts, token, now, recent) == |HeldAt(alerts, token, now, recent)|
    decreases |alerts|
  {
    if alerts == [] {
      assert HeldAt(alerts, token, now, recent) == {};
    } else {
      var n := |alerts| - 1;
      UnreportedCounts(alerts[..n], token, now, recent);
      HeldSnoc(alerts[..n], alerts[n], token, now, recent);
      assert alerts == alerts[..n] + [alerts[n]];
    }
  }

  lemma HeldSnoc(alerts: seq<Rec>, a: Rec, token: string, now: int, recent: seq<Rec>)
    ensures |HeldAt(alerts + [a], token, now, recent)|
      == |HeldAt(alerts, token, now, recent)| + if HeldSince(a, token, now, recent) then 1 else 0
  {
    var some, all := HeldAt(alerts, token, now, recent), HeldAt(alerts + [a], token, now, recent);
    assert (alerts + [a])[|alerts|] == a && forall i :: 0 <= i < |alerts| ==> (alerts + [a])[i] == alerts[i];
    assert all == if HeldSince(a, token, now, recent) then some + {|alerts|} else some;
    assert |alerts| !in some;
  }

  /** Recent keeps, in order, exactly the token's delivered records of less than 24 hours. */
  lemma {:induction false} RecentIs(alerts: seq<Rec>, token: string, now: int)
    ensures forall a :: a in Recent(alerts, token, now) <==>
      a in alerts && a.token == token && !a.heldBack && now - a.t < 86_400_000_000_000
    decreases |alerts|
  {
    if alerts != [] {
      RecentIs(alerts[..|alerts| - 1], token, now);
      assert alerts == alerts[..|alerts| - 1] + [alerts[|alerts| - 1]];
    }
  }

  /** Percent: what is now is what was and that much of it. */
  lemma PctIs(now: Price, past: Price)
    ensures past + Pct(now, past) / 100.0 * past == now
  {
    assert now / past * past == now;
    assert Pct(now, past) / 100.0 == now / past - 1.0;
  }

  /** The thresholds: in an hour and in a day, by how many alerts the token had in the day. */
  lemma Thresholds(n: nat)
    ensures RuleOf("SOL") == Some(Rule(2.5, 6.0)) && RuleOf("PUMP") == Some(Rule(5.0, 12.0))
    ensures RuleOf("MET") == Some(Rule(6.0, 15.0)) && RuleOf("SKR") == Some(Rule(8.0, 25.0))
    ensures Escalated(0, 100.0) == 100.0 && Escalated(1, 100.0) == 150.0 && Escalated(n + 2, 100.0) == 200.0
  {
  }

  function Change(p: Price, past: Option<Sample>): real {
    if past.None? then 0.0 else Pct(p, past.value.p)
  }

  predicate Hit(p: Price, past: Option<Sample>, threshold: real) {
    past.Some? && Abs(Pct(p, past.value.p)) >= threshold
  }

  /** Too soon after the token's last alert, or not a full threshold away from it yet. */
  predicate Blocked(last: Option<Rec>, p: Price, now: int, rule: Rule) {
    last.Some?
    && (now - last.value.t < Cooldown || (Fresh(last.value, now) && Abs(Pct(p, last.value.price)) < rule.hour))
  }

  /** The token has a rule and a sample of this very second. */
  predicate Sampled(xs: seq<Sample>, token: string, now: int) {
    RuleOf(token).Some? && xs != [] && xs[|xs| - 1].t == Unix(now)
  }

  predicate HitNow(xs: seq<Sample>, alerts: seq<Rec>, token: string, now: int)
    requires Sampled(xs, token, now)
  {
    var p, rule, n := xs[|xs| - 1].p, RuleOf(token).value, |Recent(alerts, token, now)|;
    Hit(p, Near(xs, Unix(now - Hour)), Escalated(n, rule.hour))
    || Hit(p, Near(xs, Unix(now - 24 * Hour)), Escalated(n, rule.day))
  }

  /** The record a hit on the second minute running earns. */
  function Decide(xs: seq<Sample>, alerts: seq<Rec>, token: string, now: int, id: int): (r: Option<Rec>)
    requires Sampled(xs, token, now) && HitNow(xs, alerts, token, now)
    ensures r.Some? ==> r.value.t == now && r.value.token == token && r.value.id == id
    ensures r.Some? ==> (r.value.heldBack <==> |Recent(alerts, token, now)| >= Cap)
  {
    var p, rule, recent := xs[|xs| - 1].p, RuleOf(token).value, Recent(alerts, token, now);
    var hour, day := Near(xs, Unix(now - Hour)), Near(xs, Unix(now - 24 * Hour));
    if Blocked(Last(alerts, token), p, now, rule) then None
    else
      var hourly := Hit(p, hour, Escalated(|recent|, rule.hour));
      var past := if hourly then hour.value else day.value;
      var held := |recent| >= Cap;
      Some(Rec(id, now, token, hourly, Pct(p, past.p), p, past.p, Change(p, day), |recent| + 1, held,
               if held then 0 else Unreported(alerts, token, now, recent)))
  }

  // ---- the state ---------------------------------------------------------------------------

  /** Samples, hits and records; log is alerts.jsonl, which keeps every record. */
  datatype State = State(samples: map<string, seq<Sample>>, prevHit: map<string, bool>, nextId: int, alerts: seq<Rec>,
      log: seq<Rec>)

  function SamplesOf(st: State, token: string): seq<Sample> {
    if token in st.samples then st.samples[token] else []
  }

  predicate WasHit(st: State, token: string) {
    token in st.prevHit && st.prevHit[token]
  }

  /** The hit is remembered; a move counts on the second minute running. */
  function Noted(st: State, token: string, hit: bool, move: Option<Rec>): State {
    var up := st.(prevHit := st.prevHit[token := hit]);
    if hit && WasHit(st, token) && move.Some?
    then up.(nextId := st.nextId + 1, alerts := st.alerts + [move.value], log := st.log + [move.value])
    else up
  }

  /** One token at one minute. */
  function Stepped(st: State, token: string, now: int): State {
    var xs := SamplesOf(st, token);
    if !Sampled(xs, token, now) then st
    else if HitNow(xs, st.alerts, token, now) then Noted(st, token, true, Decide(xs, st.alerts, token, now, st.nextId))
    else Noted(st, token, false, None)
  }

  function Recorded(st: State, token: string, now: int, p: Price): State {
    st.(samples := st.samples[token := Trim(SamplesOf(st, token) + [Sample(Unix(now), p)], Unix(now - KeepSamples))])
  }

  type Quotes = map<string, Price>

  function RecordAll(st: State, now: int, quotes: Quotes, tokens: seq<string>): State {
    if tokens == [] then st
    else
      var up, token := RecordAll(st, now, quotes, tokens[..|tokens| - 1]), tokens[|tokens| - 1];
      if token in quotes then Recorded(up, token, now, quotes[token]) else up
  }

  function StepAll(st: State, now: int, quotes: Quotes, tokens: seq<string>): State {
    if tokens == [] then st
    else
      var up, token := StepAll(st, now, quotes, tokens[..|tokens| - 1]), tokens[|tokens| - 1];
      if token in quotes then Stepped(up, token, now) else up
  }

  function Since(alerts: seq<Rec>, cut: int): seq<Rec> {
    if alerts == [] then []
    else
      var a := alerts[|alerts| - 1];
      if a.t > cut then Since(alerts[..|alerts| - 1], cut) + [a] else Since(alerts[..|alerts| - 1], cut)
  }

  predicate Answered(quotes: Quotes, tokens: seq<string>) {
    exists i :: 0 <= i < |tokens| && tokens[i] in quotes
  }

  /** One minute, with the positive prices that came back. */
  function Tick(st: State, now: int, quotes: Quotes): State {
    if !Answered(quotes, Tokens) then st
    else
      var up := StepAll(RecordAll(st, now, quotes, Tokens), now, quotes, Tokens);
      up.(alerts := Since(up.alerts, now - KeepAlerts))
  }

  ghost predicate InOrder(st: State) {
    forall token :: token in st.samples ==> Ordered(st.samples[token])
  }

  class Sampler {
    var samples: map<string, seq<Sample>>
    var prevHit: map<string, bool>
    var nextId: int
    var alerts: seq<Rec>
    var log: seq<Rec>

    constructor ()
      ensures Now() == State(map[], map[], 1, [], [])
    {
      samples, prevHit, nextId, alerts, log := map[], map[], 1, [], [];
    }

    function Now(): State reads this {
      State(samples, prevHit, nextId, alerts, log)
    }

    method AlertStep(token: string, now: int)
      requires Ordered(SamplesOf(Now(), token))
      modifies `prevHit, `nextId, `alerts, `log
      ensures Now() == Stepped(old(Now()), token, now)
    {
      var xs := if token in samples then samples[token] else [];
      if !Sampled(xs, token, now) {
        return;
      }
      var hit, move := Qualify(xs, token, now);
      Note(token, hit, move);
    }

    method Note(token: string, hit: bool, move: Option<Rec>)
      modifies `prevHit, `nextId, `alerts, `log
      ensures Now() == Noted(old(Now()), token, hit, move)
    {
      var held := token in prevHit && prevHit[token];
      prevHit := prevHit[token := hit];
      if !hit || !held || move.None? {
        return;
      }
      nextId := nextId + 1;
      alerts := alerts + [move.value];
      log := log + [move.value];
    }

    /** Whether this minute is a hit, and the record it earns if it is the second running. */
    method Qualify(xs: seq<Sample>, token: string, now: int) returns (hit: bool, move: Option<Rec>)
      requires Sampled(xs, token, now) && Ordered(xs)
      ensures hit <==> HitNow(xs, alerts, token, now)
      ensures move == if hit then Decide(xs, alerts, token, now, nextId) else None
    {
      var rule, p := RuleOf(token).value, xs[|xs| - 1].p;
      var hour := SampleNear(xs, Unix(now - Hour));
      var day := SampleNear(xs, Unix(now - 24 * Hour));
      var recent, last := FindRecent(token, now);
      var hit1, hit24 := Hit(p, hour, Escalated(|recent|, rule.hour)), Hit(p, day, Escalated(|recent|, rule.day));
      if !(hit1 || hit24) || Blocked(last, p, now, rule) {
        return hit1 || hit24, None;
      }
      var past := if hit1 then hour.value else day.value;
      var n := 0;
      if |recent| < Cap {
        n := CountUnreported(token, now, recent);
      }
      return true, Some(Rec(nextId, now, token, hit1, Pct(p, past.p), p, past.p, Change(p, day), |recent| + 1,
          |recent| >= Cap, n));
    }

    method FindRecent(token: string, now: int) returns (recent: seq<Rec>, last: Option<Rec>)
      ensures recent == Recent(alerts, token, now) && last == Last(alerts, token)
    {
      recent, last := [], None;
      var i := 0;
      while i < |alerts|
        invariant 0 <= i <= |alerts|
        invariant recent == Recent(alerts[..i], token, now) && last == Last(alerts[..i], token)
      {
        assert alerts[..i + 1][..i] == alerts[..i];
        var a := alerts[i];
        if a.token == token {
          if last == None || a.t > last.value.t {
            last := Some(a);
          }
          if !a.heldBack && now - a.t < 24 * Hour {
            recent := recent + [a];
          }
        }
        i := i + 1;
      }
      assert alerts[..i] == alerts;
    }

    method CountUnreported(token: string, now: int, recent: seq<Rec>) returns (n: nat)
      ensures n == Unreported(alerts, token, now, recent)
    {
      n := 0;
      var i := 0;
      while i < |alerts|
        invariant 0 <= i <= |alerts| && n == Unreported(alerts[..i], token, now, recent)
      {
        assert alerts[..i + 1][..i] == alerts[..i];
        var a := alerts[i];
        if a.token == token && a.heldBack && now - a.t < 24 * Hour && (|recent| == 0 || a.t > recent[|recent| - 1].t) {
          n := n + 1;
        }
        i := i + 1;
      }
      assert alerts[..i] == alerts;
    }

    /** The clock has not gone back behind any sample. */
    method AlertTick(now: int, quotes: Quotes)
      requires InOrder(Now()) && NoneAfter(Now(), now)
      modifies this
      ensures Now() == Tick(old(Now()), now, quotes)
      ensures InOrder(Now()) && NoneAfter(Now(), now)
    {
      var ok, i := 0, 0;
      while i < |Tokens|
        invariant 0 <= i <= |Tokens| && ok >= 0
        invariant Now() == RecordAll(old(Now()), now, quotes, Tokens[..i]) && InOrder(Now()) && NoneAfter(Now(), now)
        invariant ok > 0 <==> Answered(quotes, Tokens[..i])
        invariant ok == 0 ==> Now() == old(Now())
      {
        assert Tokens[..i + 1][..i] == Tokens[..i];
        AnsweredSnoc(quotes, Tokens, i);
        var token := Tokens[i];
        if token in quotes {
          ok := ok + 1;
          RecordKeepsOrder(Now(), token, now, quotes[token]);
          var xs := AppendSample(
              if token in samples then samples[token] else [], Sample(Unix(now), quotes[token]), now);
          samples := samples[token := xs];
        }
        i := i + 1;
      }
      assert Tokens[..i] == Tokens;
      if ok == 0 {
        return;
      }
      ghost var sampled := Now();
      i := 0;
      while i < |Tokens|
        invariant 0 <= i <= |Tokens|
        invariant Now() == StepAll(sampled, now, quotes, Tokens[..i]) && Now().samples == sampled.samples
      {
        assert Tokens[..i + 1][..i] == Tokens[..i];
        if Tokens[i] in quotes {
          AlertStep(Tokens[i], now);
        }
        i := i + 1;
      }
      assert Tokens[..i] == Tokens;
      alerts := KeptSince(now - KeepAlerts);
    }

    /** The records of the last two days. */
    method KeptSince(cut: int) returns (kept: seq<Rec>)
      ensures kept == Since(alerts, cut)
    {
      kept := [];
      var i := 0;
      while i < |alerts|
        invariant 0 <= i <= |alerts| && kept == Since(alerts[..i], cut)
      {
        assert alerts[..i + 1][..i] == alerts[..i];
        if alerts[i].t > cut {
          kept := kept + [alerts[i]];
        }
        i := i + 1;
      }
      assert alerts[..i] == alerts;
    }
  }

  lemma AnsweredSnoc(quotes: Quotes, tokens: seq<string>, i: nat)
    requires i < |tokens|
    ensures Answered(quotes, tokens[..i + 1]) <==> Answered(quotes, tokens[..i]) || tokens[i] in quotes
  {
    assert tokens[..i + 1][i] == tokens[i];
    if k :| 0 <= k < i && tokens[..i][k] in quotes {
      assert tokens[..i + 1][k] == tokens[..i][k];
    }
  }

  ghost predicate NoneAfter(st: State, now: int) {
    forall token, i :: token in st.samples && 0 <= i < |st.samples[token]| ==> st.samples[token][i].t <= Unix(now)
  }

  lemma {:induction false} TrimKeepsOrder(xs: seq<Sample>, cut: int, now: int)
    requires Ordered(xs) && forall i :: 0 <= i < |xs| ==> xs[i].t <= now
    ensures Ordered(Trim(xs, cut)) && forall i :: 0 <= i < |Trim(xs, cut)| ==> Trim(xs, cut)[i].t <= now
  {
    if xs != [] && xs[0].t < cut {
      TrimKeepsOrder(xs[1..], cut, now);
    }
  }

  lemma RecordKeepsOrder(st: State, token: string, now: int, p: Price)
    requires InOrder(st) && NoneAfter(st, now)
    ensures InOrder(Recorded(st, token, now, p)) && NoneAfter(Recorded(st, token, now, p), now)
  {
    TrimKeepsOrder(SamplesOf(st, token) + [Sample(Unix(now), p)], Unix(now - KeepSamples), Unix(now));
  }
}
