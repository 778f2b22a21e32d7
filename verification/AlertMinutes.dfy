/** One minute of the price alerts over all tokens (internal/server/alerts.go): each token comes out
    of it as if it were alone, and the records are numbered. */
module AlertMinutes {
  import opened Base
  import opened Alerts
  import opened AlertRuns

  // ---- what a token's step depends on ---------------------------------------------------------

  /** All that the next step of a token depends on, but for the number of a new record. */
  ghost predicate SameFor(a: State, b: State, token: string) {
    && SamplesOf(a, token) == SamplesOf(b, token) && WasHit(a, token) == WasHit(b, token)
    && OfToken(a.alerts, token) == OfToken(b.alerts, token) && OfToken(a.log, token) == OfToken(b.log, token)
  }

  lemma {:induction false} RecentOwn(alerts: seq<Rec>, token: string, now: int)
    ensures Recent(alerts, token, now) == Recent(OfToken(alerts, token), token, now)
    decreases |alerts|
  {
    if alerts != [] {
      var front, a := alerts[..|alerts| - 1], alerts[|alerts| - 1];
      RecentOwn(front, token, now);
      assert (OfToken(front, token) + [a])[..|OfToken(front, token)|] == OfToken(front, token);
    }
  }

  lemma {:induction false} LastOwn(alerts: seq<Rec>, token: string)
    ensures Last(alerts, token) == Last(OfToken(alerts, token), token)
    decreases |alerts|
  {
    if alerts != [] {
      var front, a := alerts[..|alerts| - 1], alerts[|alerts| - 1];
      LastOwn(front, token);
      assert (OfToken(front, token) + [a])[..|OfToken(front, token)|] == OfToken(front, token);
    }
  }

  lemma {:induction false} UnreportedOwn(alerts: seq<Rec>, token: string, now: int, recent: seq<Rec>)
    ensures Unreported(alerts, token, now, recent) == Unreported(OfToken(alerts, token), token, now, recent)
    decreases |alerts|
  {
    if alerts != [] {
      var front, a := alerts[..|alerts| - 1], alerts[|alerts| - 1];
      UnreportedOwn(front, token, now, recent);
      assert (OfToken(front, token) + [a])[..|OfToken(front, token)|] == OfToken(front, token);
    }
  }

  /** The record a token's step adds. */
  function MoveOf(st: State, token: string, now: int): Option<Rec> {
    var xs := SamplesOf(st, token);
    if Sampled(xs, token, now) && HitNow(xs, st.alerts, token, now) && WasHit(st, token)
    then Decide(xs, st.alerts, token, now, st.nextId) else None
  }

  function AsLog(move: Option<Rec>): seq<Rec> {
    if move.Some? then [move.value] else []
  }

  /** Equal but for the number. */
  predicate SameMove(x: Option<Rec>, y: Option<Rec>) {
    x.Some? == y.Some? && (x.Some? ==> x.value.(id := 0) == y.value.(id := 0))
  }

  /** The same alerts of the token: what is asked of them has the same answers. */
  lemma OwnAnswers(some: seq<Rec>, more: seq<Rec>, token: string, now: int)
    requires OfToken(some, token) == OfToken(more, token)
    ensures Recent(some, token, now) == Recent(more, token, now) && Last(some, token) == Last(more, token)
    ensures var recent := Recent(some, token, now);
      Unreported(some, token, now, recent) == Unreported(more, token, now, recent)
  {
    RecentOwn(some, token, now);
    RecentOwn(more, token, now);
    LastOwn(some, token);
    LastOwn(more, token);
    UnreportedOwn(some, token, now, Recent(some, token, now));
    UnreportedOwn(more, token, now, Recent(some, token, now));
  }

  lemma OwnHit(xs: seq<Sample>, some: seq<Rec>, more: seq<Rec>, token: string, now: int)
    requires Sampled(xs, token, now) && OfToken(some, token) == OfToken(more, token)
    ensures HitNow(xs, some, token, now) <==> HitNow(xs, more, token, now)
  {
    OwnAnswers(some, more, token, now);
  }

  lemma OwnDecision(xs: seq<Sample>, some: seq<Rec>, more: seq<Rec>, token: string, now: int, i: int, j: int)
    requires Sampled(xs, token, now) && OfToken(some, token) == OfToken(more, token)
    requires HitNow(xs, some, token, now) && HitNow(xs, more, token, now)
    ensures SameMove(Decide(xs, some, token, now, i), Decide(xs, more, token, now, j))
  {
    OwnAnswers(some, more, token, now);
  }

  lemma OwnMove(a: State, b: State, token: string, now: int)
    requires SameFor(a, b, token)
    ensures SameMove(MoveOf(a, token, now), MoveOf(b, token, now))
    ensures var xs := SamplesOf(a, token);
      Sampled(xs, token, now) ==> (HitNow(xs, a.alerts, token, now) <==> HitNow(xs, b.alerts, token, now))
  {
    var xs := SamplesOf(a, token);
    if Sampled(xs, token, now) {
      OwnHit(xs, a.alerts, b.alerts, token, now);
      if HitNow(xs, a.alerts, token, now) {
        OwnDecision(xs, a.alerts, b.alerts, token, now, a.nextId, b.nextId);
      }
    }
  }

  lemma StepAdds(st: State, token: string, now: int)
    ensures var next := Stepped(st, token, now);
      next.log == st.log + AsLog(MoveOf(st, token, now)) && next.alerts == st.alerts + AsLog(MoveOf(st, token, now))
  {
  }

  lemma OthersStep(st: State, other: string, now: int, token: string)
    requires other != token
    ensures SameFor(st, Stepped(st, other, now), token)
  {
    StepAdds(st, other, now);
    var move := MoveOf(st, other, now);
    if move.Some? {
      Snocs(st.log, move.value, token);
      Snocs(st.alerts, move.value, token);
    }
  }

  // ---- a minute ---------------------------------------------------------------------------------

  /** next is, for this token, what its own step alone makes of st. */
  ghost predicate AsAlone(st: State, next: State, token: string, now: int) {
    var one := Stepped(st, token, now);
    && SamplesOf(next, token) == SamplesOf(st, token) && WasHit(next, token) == WasHit(one, token)
    && exists move :: SameMove(move, MoveOf(st, token, now))
                      && OfToken(next.log, token) == OfToken(st.log, token) + AsLog(move)
  }

  lemma OwnStep(st: State, up: State, token: string, now: int)
    requires SameFor(st, up, token)
    ensures AsAlone(st, Stepped(up, token, now), token, now)
  {
    OwnMove(st, up, token, now);
    StepAdds(up, token, now);
    HitIsNoted(st, token, now);
    HitIsNoted(up, token, now);
    var move := MoveOf(up, token, now);
    if move.Some? {
      Snocs(up.log, move.value, token);
    }
    assert SameMove(move, MoveOf(st, token, now));
  }

  lemma {:induction false} StepsOfOthers(st: State, now: int, quotes: Quotes, tokens: seq<string>, token: string)
    requires token !in tokens || token !in quotes
    ensures SameFor(st, StepAll(st, now, quotes, tokens), token)
    decreases |tokens|
  {
    if tokens != [] {
      var front, other := tokens[..|tokens| - 1], tokens[|tokens| - 1];
      StepsOfOthers(st, now, quotes, front, token);
      if other in quotes {
        OthersStep(StepAll(st, now, quotes, front), other, now, token);
      }
    }
  }

  ghost predicate Distinct(tokens: seq<string>) {
    forall i, j :: 0 <= i < j < |tokens| ==> tokens[i] != tokens[j]
  }

  lemma {:induction false} StepsOfAll(st: State, now: int, quotes: Quotes, tokens: seq<string>, token: string)
    requires token in tokens && token in quotes && Distinct(tokens)
    ensures AsAlone(st, StepAll(st, now, quotes, tokens), token, now)
    decreases |tokens|
  {
    var front, other := tokens[..|tokens| - 1], tokens[|tokens| - 1];
    var up := StepAll(st, now, quotes, front);
    if other == token {
      StepsOfOthers(st, now, quotes, front, token);
      OwnStep(st, up, token, now);
    } else {
      StepsOfAll(st, now, quotes, front, token);
      if other in quotes {
        OthersStep(up, other, now, token);
      }
    }
  }

  lemma {:induction false} RecordsOfAll(st: State, now: int, quotes: Quotes, tokens: seq<string>, token: string)
    requires Distinct(tokens)
    ensures var up := RecordAll(st, now, quotes, tokens);
      var one := if token in tokens && token in quotes then Recorded(st, token, now, quotes[token]) else st;
      SameFor(one, up, token)
    decreases |tokens|
  {
    if tokens != [] {
      var front, other := tokens[..|tokens| - 1], tokens[|tokens| - 1];
      RecordsOfAll(st, now, quotes, front, token);
      assert tokens == front + [other];
    }
  }

  /** A minute over all four tokens leaves each that was quoted as if it were alone: its price is on
      record, its hit is noted, and it has a new record exactly when its own step gives one, equal
      in all but the number. */
  lemma TokensAreApart(st: State, now: int, quotes: Quotes, token: string)
    requires token in {"SOL", "PUMP", "MET", "SKR"} && token in quotes
    ensures AsAlone(Recorded(st, token, now, quotes[token]), Tick(st, now, quotes), token, now)
  {
    var one, all := Recorded(st, token, now, quotes[token]), RecordAll(st, now, quotes, Tokens);
    RecordsOfAll(st, now, quotes, Tokens, token);
    StepsOfAll(all, now, quotes, Tokens, token);
    OwnMove(one, all, token, now);
    AloneEither(one, all, StepAll(all, now, quotes, Tokens), token, now);
    assert Answered(quotes, Tokens);
  }

  lemma AloneEither(a: State, b: State, next: State, token: string, now: int)
    requires SameFor(a, b, token) && AsAlone(b, next, token, now)
    ensures AsAlone(a, next, token, now)
  {
    OwnMove(a, b, token, now);
    var move :| SameMove(move, MoveOf(b, token, now))
                && OfToken(next.log, token) == OfToken(b.log, token) + AsLog(move);
    assert SameMove(move, MoveOf(a, token, now));
  }

  /** A token that was not quoted is as it was. */
  lemma UnquotedStays(st: State, now: int, quotes: Quotes, token: string)
    requires token !in quotes
    ensures var next := Tick(st, now, quotes);
      && SamplesOf(next, token) == SamplesOf(st, token) && WasHit(next, token) == WasHit(st, token)
      && OfToken(next.log, token) == OfToken(st.log, token)
  {
    RecordsOfAll(st, now, quotes, Tokens, token);
    StepsOfOthers(RecordAll(st, now, quotes, Tokens), now, quotes, Tokens, token);
  }

  // ---- the numbers ------------------------------------------------------------------------------

  /** The records are numbered from 1, in order. */
  ghost predicate Numbered(st: State) {
    st.nextId == |st.log| + 1 && forall i :: 0 <= i < |st.log| ==> st.log[i].id == i + 1
  }

  lemma {:induction false} StepsNumber(st: State, now: int, quotes: Quotes, tokens: seq<string>)
    requires Numbered(st)
    ensures Numbered(StepAll(st, now, quotes, tokens))
    decreases |tokens|
  {
    if tokens != [] {
      StepsNumber(st, now, quotes, tokens[..|tokens| - 1]);
    }
  }

  lemma {:induction false} RecordKeepsLog(st: State, now: int, quotes: Quotes, tokens: seq<string>)
    ensures RecordAll(st, now, quotes, tokens).log == st.log && RecordAll(st, now, quotes, tokens).nextId == st.nextId
    decreases |tokens|
  {
    if tokens != [] {
      RecordKeepsLog(st, now, quotes, tokens[..|tokens| - 1]);
    }
  }

  /** Over any run, whatever the clock and the prices. */
  lemma {:induction false} RunNumbers(ticks: seq<Moment>)
    ensures Numbered(Run(ticks))
    decreases |ticks|
  {
    if ticks != [] {
      var front, m := Run(ticks[..|ticks| - 1]), ticks[|ticks| - 1];
      RunNumbers(ticks[..|ticks| - 1]);
      RecordKeepsLog(front, m.now, m.quotes, Tokens);
      StepsNumber(RecordAll(front, m.now, m.quotes, Tokens), m.now, m.quotes, Tokens);
    }
  }
}
