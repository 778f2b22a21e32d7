/** What a trail holds after any run of events (internal/server/agentwork.go). */
module TrailRefs {
  import opened Base
  import opened Trail

  ghost predicate Distinct(refs: seq<Ref>) {
    forall i, j :: 0 <= i < j < |refs| ==> refs[i].ref != refs[j].ref
  }

  // ---- one instruction's addresses --------------------------------------------------------------

  lemma {:induction false} FirstsAre(found: seq<string>)
    ensures forall r :: r in Firsts(found) <==> Count(found, r) > 0
    ensures forall i, j :: 0 <= i < j < |Firsts(found)| ==> Firsts(found)[i] != Firsts(found)[j]
  {
    if found != [] {
      FirstsAre(found[..|found| - 1]);
    }
  }

  ghost predicate Descending(refs: seq<Ref>) {
    forall i, j :: 0 <= i < j < |refs| ==> refs[i].n >= refs[j].n
  }

  /** Those said n times. */
  function Only(refs: seq<Ref>, n: nat): seq<Ref> {
    if refs == [] then []
    else
      var front, r := Only(refs[..|refs| - 1], n), refs[|refs| - 1];
      if r.n == n then front + [r] else front
  }

  lemma OnlySnoc(refs: seq<Ref>, r: Ref, n: nat)
    ensures Only(refs + [r], n) == if r.n == n then Only(refs, n) + [r] else Only(refs, n)
  {
    assert (refs + [r])[..|refs|] == refs;
  }

  lemma {:induction false} InsertHas(refs: seq<Ref>, r: Ref)
    ensures forall x :: x in Insert(refs, r) <==> x == r || x in refs
    decreases |refs|
  {
    if refs != [] && refs[|refs| - 1].n < r.n {
      InsertHas(refs[..|refs| - 1], r);
      assert refs == refs[..|refs| - 1] + [refs[|refs| - 1]];
    }
  }

  lemma DescendingSnoc(refs: seq<Ref>, z: Ref)
    requires Descending(refs) && forall x :: x in refs ==> x.n >= z.n
    ensures Descending(refs + [z])
  {
  }

  lemma {:induction false} InsertIs(refs: seq<Ref>, r: Ref)
    requires Descending(refs)
    ensures Descending(Insert(refs, r))
    ensures forall x :: x in Insert(refs, r) <==> x == r || x in refs
    decreases |refs|
  {
    InsertHas(refs, r);
    if refs != [] && refs[|refs| - 1].n < r.n {
      var front, z := refs[..|refs| - 1], refs[|refs| - 1];
      InsertIs(front, r);
      forall x | x in front ensures x.n >= z.n {
        var i :| 0 <= i < |front| && front[i] == x;
        assert refs[i] == x;
      }
      DescendingSnoc(Insert(front, r), z);
    }
  }

  lemma {:induction false} InsertStable(refs: seq<Ref>, r: Ref, n: nat)
    requires Descending(refs)
    ensures Only(Insert(refs, r), n) == if r.n == n then Only(refs, n) + [r] else Only(refs, n)
    decreases |refs|
  {
    OnlySnoc(refs, r, n);
    if refs != [] && refs[|refs| - 1].n < r.n {
      var front, z := refs[..|refs| - 1], refs[|refs| - 1];
      InsertStable(front, r, n);
      OnlySnoc(Insert(front, r), z, n);
      assert refs == front + [z];
      OnlySnoc(front, z, n);
    }
  }

  lemma {:induction false} InsertDistinct(refs: seq<Ref>, r: Ref)
    requires Distinct(refs) && Descending(refs) && forall x :: x in refs ==> x.ref != r.ref
    ensures Distinct(Insert(refs, r))
    decreases |refs|
  {
    if refs != [] && refs[|refs| - 1].n < r.n {
      var front, z := refs[..|refs| - 1], refs[|refs| - 1];
      InsertIs(front, r);
      assert forall x :: x in front ==> x in refs;
      assert z in refs;
      InsertDistinct(front, r);
      forall x | x in Insert(front, r) ensures x.ref != z.ref {
        if x in front {
          var i :| 0 <= i < |front| && front[i] == x;
          assert refs[i] == x;
        }
      }
    }
  }

  /** Ranking sorts by how often an address was said, keeps equals in their order, and keeps
      every address. */
  lemma {:induction false} RankedIsStable(refs: seq<Ref>, n: nat)
    ensures Descending(Ranked(refs)) && Only(Ranked(refs), n) == Only(refs, n)
    ensures forall x :: x in Ranked(refs) <==> x in refs
    decreases |refs|
  {
    RankedHas(refs);
    if refs != [] {
      var front, r := refs[..|refs| - 1], refs[|refs| - 1];
      RankedIsStable(front, n);
      InsertIs(Ranked(front), r);
      InsertStable(Ranked(front), r, n);
    }
  }

  lemma {:induction false} RankedHas(refs: seq<Ref>)
    ensures forall x :: x in Ranked(refs) <==> x in refs
    decreases |refs|
  {
    if refs != [] {
      var front, r := refs[..|refs| - 1], refs[|refs| - 1];
      RankedHas(front);
      InsertHas(Ranked(front), r);
      assert refs == front + [r];
    }
  }

  lemma {:induction false} RankedDistinct(refs: seq<Ref>)
    requires Distinct(refs)
    ensures Distinct(Ranked(refs))
    decreases |refs|
  {
    if refs != [] {
      var front, r := refs[..|refs| - 1], refs[|refs| - 1];
      RankedDistinct(front);
      RankedIsStable(front, 0);
      InsertDistinct(Ranked(front), r);
    }
  }

  lemma SaidAre(found: seq<string>, ts: int)
    ensures Distinct(Said(found, ts)) && Descending(Said(found, ts)) && |Said(found, ts)| == |Firsts(found)|
    ensures forall x :: x in Said(found, ts) <==> Count(found, x.ref) > 0 && x == Ref(x.ref, Count(found, x.ref), ts)
  {
    FirstsAre(found);
    var firsts := Firsts(found);
    var counted := Counted(found, firsts, ts);
    RankedDistinct(counted);
    RankedIsStable(counted, 0);
    forall x ensures x in counted <==> Count(found, x.ref) > 0 && x == Ref(x.ref, Count(found, x.ref), ts) {
      if Count(found, x.ref) > 0 && x == Ref(x.ref, Count(found, x.ref), ts) {
        assert x.ref in firsts;
        var i :| 0 <= i < |firsts| && firsts[i] == x.ref;
        assert counted[i] == x;
      }
      if x in counted {
        var i :| 0 <= i < |counted| && counted[i] == x;
        assert firsts[i] in firsts;
      }
    }
  }

  lemma {:induction false} UnsaidAre(refs: seq<Ref>, found: seq<string>)
    ensures forall x :: x in Unsaid(refs, found) <==> x in refs && Count(found, x.ref) == 0
    decreases |refs|
  {
    if refs != [] {
      UnsaidAre(refs[..|refs| - 1], found);
      assert refs == refs[..|refs| - 1] + [refs[|refs| - 1]];
    }
  }

  lemma {:induction false} UnsaidAppend(a: seq<Ref>, b: seq<Ref>, found: seq<string>)
    ensures Unsaid(a + b, found) == Unsaid(a, found) + Unsaid(b, found)
    decreases |b|
  {
    if b == [] {
      assert a + b == a;
    } else {
      assert (a + b)[..|a + b| - 1] == a + b[..|b| - 1];
      UnsaidAppend(a, b[..|b| - 1], found);
    }
  }

  // ---- the cap loses nothing that would come back --------------------------------------------

  function Names(refs: seq<Ref>): set<string> {
    set x | x in refs :: x.ref
  }

  lemma NamesSnoc(refs: seq<Ref>, r: Ref)
    ensures Names(refs + [r]) == Names(refs) + {r.ref}
  {
    assert (refs + [r])[|refs|] == r;
    forall x | x in refs ensures x in refs + [r] {
    }
  }

  lemma {:induction false} NamesSize(refs: seq<Ref>)
    requires Distinct(refs)
    ensures |Names(refs)| == |refs|
    decreases |refs|
  {
    if refs != [] {
      var front, r := refs[..|refs| - 1], refs[|refs| - 1];
      NamesSize(front);
      assert refs == front + [r];
      forall x | x in front ensures x.ref != r.ref {
        var i :| 0 <= i < |front| && front[i] == x;
        assert refs[i] == x;
      }
      NamesSnoc(front, r);
      assert r.ref !in Names(front);
    }
  }

  lemma SubsetSize<T>(a: set<T>, b: set<T>)
    requires a <= b
    ensures |a| <= |b|
  {
    assert b == a + (b - a);
  }

  lemma RemovesAtMost(refs: seq<Ref>, found: seq<string>, ts: int)
    requires Distinct(refs) && Distinct(Unsaid(refs, found))
    ensures |refs| <= |Unsaid(refs, found)| + |Said(found, ts)|
  {
    SaidAre(found, ts);
    UnsaidAre(refs, found);
    NamesSize(refs);
    NamesSize(Unsaid(refs, found));
    NamesSize(Said(found, ts));
    forall r | r in Names(refs) ensures r in Names(Unsaid(refs, found)) + Names(Said(found, ts)) {
      var x :| x in refs && x.ref == r;
      if Count(found, r) > 0 {
        assert Ref(r, Count(found, r), ts) in Said(found, ts);
      } else {
        assert x in Unsaid(refs, found);
      }
    }
    SubsetSize(Names(refs), Names(Unsaid(refs, found)) + Names(Said(found, ts)));
  }

  lemma {:induction false} UnsaidDistinct(refs: seq<Ref>, found: seq<string>)
    requires Distinct(refs)
    ensures Distinct(Unsaid(refs, found))
    decreases |refs|
  {
    if refs != [] {
      var front, r := refs[..|refs| - 1], refs[|refs| - 1];
      UnsaidDistinct(front, found);
      UnsaidAre(front, found);
      forall x | x in Unsaid(front, found) ensures x.ref != r.ref {
        var i :| 0 <= i < |front| && front[i] == x;
        assert refs[i] == x;
      }
    }
  }

  lemma CapOnceOrTwice(refs: seq<Ref>, found: seq<string>, ts: int)
    requires Distinct(refs)
    ensures Take(Said(found, ts) + Unsaid(Take(refs, RefsKept), found), RefsKept)
         == Take(Said(found, ts) + Unsaid(refs, found), RefsKept)
  {
    if |refs| > RefsKept {
      var kept, rest := refs[..RefsKept], refs[RefsKept..];
      assert refs == kept + rest;
      UnsaidAppend(kept, rest, found);
      UnsaidDistinct(kept, found);
      RemovesAtMost(kept, found, ts);
      assert Said(found, ts) + Unsaid(refs, found) == (Said(found, ts) + Unsaid(kept, found)) + Unsaid(rest, found);
    }
  }

  // ---- any run of events --------------------------------------------------------------------

  /** All the addresses ever named, those of the latest instruction first. */
  function Everything(events: seq<Event>): seq<Ref> {
    if events == [] then []
    else
      var refs, e := Everything(events[..|events| - 1]), events[|events| - 1];
      if e.Name? && e.found != [] then Said(e.found, e.ts) + Unsaid(refs, e.found) else refs
  }

  /** The latest instruction that named r, counted from 1; 0 for none. */
  function LatestAt(events: seq<Event>, r: string): nat {
    if events == [] then 0
    else
      var e := events[|events| - 1];
      if e.Name? && Count(e.found, r) > 0 then |events| else LatestAt(events[..|events| - 1], r)
  }

  lemma {:induction false} LatestWithin(events: seq<Event>, r: string)
    ensures LatestAt(events, r) <= |events|
    ensures LatestAt(events, r) > 0 ==>
      events[LatestAt(events, r) - 1].Name? && Count(events[LatestAt(events, r) - 1].found, r) > 0
  {
    if events != [] {
      LatestWithin(events[..|events| - 1], r);
    }
  }

  /** What its latest instruction said of r. */
  function Latest(events: seq<Event>, r: string): Option<Ref> {
    if events == [] then None
    else
      var e := events[|events| - 1];
      if e.Name? && Count(e.found, r) > 0 then Some(Ref(r, Count(e.found, r), e.ts))
      else Latest(events[..|events| - 1], r)
  }

  /** Later instructions first, and of one instruction the most said first. */
  ghost predicate LatestFirst(events: seq<Event>, refs: seq<Ref>) {
    forall i, j :: 0 <= i < j < |refs| ==>
      LatestAt(events, refs[i].ref) > LatestAt(events, refs[j].ref)
      || (LatestAt(events, refs[i].ref) == LatestAt(events, refs[j].ref) && refs[i].n >= refs[j].n)
  }

  lemma {:induction false} EverythingDistinct(events: seq<Event>)
    ensures Distinct(Everything(events))
    decreases |events|
  {
    if events != [] {
      var front, e := events[..|events| - 1], events[|events| - 1];
      EverythingDistinct(front);
      if e.Name? {
        var refs := Everything(front);
        SaidAre(e.found, e.ts);
        UnsaidAre(refs, e.found);
        UnsaidDistinct(refs, e.found);
        var said, rest := Said(e.found, e.ts), Unsaid(refs, e.found);
        forall i, j | 0 <= i < |said| && 0 <= j < |rest| ensures said[i].ref != rest[j].ref {
          assert said[i] in said && rest[j] in rest;
        }
      }
    }
  }

  lemma {:induction false} EverythingIs(events: seq<Event>)
    ensures Distinct(Everything(events))
    ensures forall x :: x in Everything(events) <==> Latest(events, x.ref) == Some(x)
    decreases |events|
  {
    EverythingDistinct(events);
    if events != [] {
      var front, e := events[..|events| - 1], events[|events| - 1];
      EverythingIs(front);
      if e.Name? {
        SaidAre(e.found, e.ts);
        UnsaidAre(Everything(front), e.found);
      }
    }
  }

  lemma {:induction false} UnsaidOrder(events: seq<Event>, refs: seq<Ref>, found: seq<string>)
    requires LatestFirst(events, refs)
    ensures LatestFirst(events, Unsaid(refs, found))
    decreases |refs|
  {
    if refs != [] {
      var front, r := refs[..|refs| - 1], refs[|refs| - 1];
      UnsaidOrder(events, front, found);
      UnsaidAre(front, found);
      var us := Unsaid(front, found);
      forall i | 0 <= i < |us|
        ensures LatestAt(events, us[i].ref) > LatestAt(events, r.ref)
             || (LatestAt(events, us[i].ref) == LatestAt(events, r.ref) && us[i].n >= r.n)
      {
        assert us[i] in us;
        var k :| 0 <= k < |front| && front[k] == us[i];
        assert refs[k] == us[i];
      }
    }
  }

  lemma {:induction false} EverythingOrder(events: seq<Event>)
    ensures LatestFirst(events, Everything(events))
    decreases |events|
  {
    if events != [] {
      var front, e := events[..|events| - 1], events[|events| - 1];
      var refs := Everything(front);
      EverythingOrder(front);
      if e.Name? && e.found != [] {
        SaidAre(e.found, e.ts);
        UnsaidAre(refs, e.found);
        UnsaidOrder(front, refs, e.found);
        var said, rest := Said(e.found, e.ts), Unsaid(refs, e.found);
        forall i | 0 <= i < |said| ensures LatestAt(events, said[i].ref) == |events| {
          assert said[i] in said;
        }
        forall i | 0 <= i < |rest|
          ensures LatestAt(events, rest[i].ref) == LatestAt(front, rest[i].ref) < |events|
        {
          assert rest[i] in rest;
          LatestWithin(front, rest[i].ref);
        }
      } else {
        SameLatest(front, e);
        assert events == front + [e];
      }
    }
  }

  lemma SameLatest(front: seq<Event>, e: Event)
    requires e.Name? ==> e.found == []
    ensures forall r :: LatestAt(front + [e], r) == LatestAt(front, r)
  {
    assert (front + [e])[..|front|] == front;
  }

  /** A trail's addresses are the first 32 of all that were named, each once with its latest
      instruction's count and time, the latest instruction's first: what the cap dropped on
      the way is what it would drop at the end. */
  lemma {:induction false} RefsAreLatest(events: seq<Event>)
    ensures Fold(NoTurn, events).refs == Take(Everything(events), 32)
    decreases |events|
  {
    if events != [] {
      var front, e := events[..|events| - 1], events[|events| - 1];
      RefsAreLatest(front);
      EverythingIs(front);
      if e.Name? && e.found != [] {
        CapOnceOrTwice(Everything(front), e.found, e.ts);
      }
    }
  }

  lemma RefsHold(events: seq<Event>)
    ensures var refs := Fold(NoTurn, events).refs;
      && Distinct(refs) && |refs| <= 32 && LatestFirst(events, refs)
      && forall x :: x in refs ==> Latest(events, x.ref) == Some(x)
  {
    RefsAreLatest(events);
    EverythingIs(events);
    EverythingOrder(events);
    TakeKeeps(events, Everything(events), RefsKept);
  }

  lemma TakeKeeps(events: seq<Event>, all: seq<Ref>, n: nat)
    requires Distinct(all) && LatestFirst(events, all)
    ensures Distinct(Take(all, n)) && |Take(all, n)| <= n && LatestFirst(events, Take(all, n))
    ensures forall x :: x in Take(all, n) ==> x in all
  {
  }

  // ---- turns ---------------------------------------------------------------------------------

  predicate NoEnd(events: seq<Event>) {
    forall i :: 0 <= i < |events| ==> !events[i].End?
  }

  predicate NoBegin(events: seq<Event>) {
    forall i :: 0 <= i < |events| ==> !events[i].Begin?
  }

  lemma {:induction false} FoldAppend(t: Turn, a: seq<Event>, b: seq<Event>)
    ensures Fold(t, a + b) == Fold(Fold(t, a), b)
    decreases |b|
  {
    if b == [] {
      assert a + b == a;
    } else {
      assert (a + b)[..|a + b| - 1] == a + b[..|b| - 1];
      FoldAppend(t, a, b[..|b| - 1]);
    }
  }

  lemma {:induction false} StaysOpen(t: Turn, b: seq<Event>)
    requires t.open && NoEnd(b)
    ensures Fold(t, b).open && Fold(t, b).since == t.since
    decreases |b|
  {
    if b != [] {
      StaysOpen(t, b[..|b| - 1]);
    }
  }

  lemma {:induction false} StaysShut(t: Turn, b: seq<Event>)
    requires !t.open && NoBegin(b)
    ensures !Fold(t, b).open
    decreases |b|
  {
    if b != [] {
      StaysShut(t, b[..|b| - 1]);
    }
  }

  /** While no end comes, a turn counts from the message that opened it; later ones join it. */
  lemma OpenSinceItBegan(a: seq<Event>, ts: int, b: seq<Event>)
    requires !Fold(NoTurn, a).open && NoEnd(b)
    ensures Fold(NoTurn, a + [Begin(ts)] + b).open && Fold(NoTurn, a + [Begin(ts)] + b).since == ts
  {
    FoldAppend(NoTurn, a + [Begin(ts)], b);
    FoldAppend(NoTurn, a, [Begin(ts)]);
    assert Fold(Fold(NoTurn, a), [Begin(ts)]) == Applied(Fold(Fold(NoTurn, a), []), Begin(ts));
    StaysOpen(Fold(NoTurn, a + [Begin(ts)]), b);
  }

  /** After an end no turn is open until one begins. */
  lemma ShutAfterEnd(a: seq<Event>, ts: int, b: seq<Event>)
    requires NoBegin(b)
    ensures !Fold(NoTurn, a + [End(ts)] + b).open
  {
    FoldAppend(NoTurn, a + [End(ts)], b);
    FoldAppend(NoTurn, a, [End(ts)]);
    assert Fold(Fold(NoTurn, a), [End(ts)]) == Applied(Fold(Fold(NoTurn, a), []), End(ts));
    StaysShut(Fold(NoTurn, a + [End(ts)]), b);
  }

  /** The end of a turn is the latest there was. */
  lemma {:induction false} LatestEnd(events: seq<Event>)
    ensures var t := Fold(NoTurn, events);
      && (forall e :: e in events && e.End? ==> e.ts <= t.ended)
      && (t.ended == 0 || exists e :: e in events && e.End? && e.ts == t.ended)
    decreases |events|
  {
    if events != [] {
      var front, last := events[..|events| - 1], events[|events| - 1];
      LatestEnd(front);
      assert events == front + [last] && last in events;
      assert forall e :: e in front ==> e in events;
    }
  }

  /** And the interaction is the latest, too. */
  lemma {:induction false} LatestInteraction(events: seq<Event>)
    ensures var t := Fold(NoTurn, events);
      && (forall e :: e in events && e.Interact? ==> e.ms <= t.interaction)
      && (t.interaction == 0 || exists e :: e in events && e.Interact? && e.ms == t.interaction)
    decreases |events|
  {
    if events != [] {
      var front, last := events[..|events| - 1], events[|events| - 1];
      LatestInteraction(front);
      assert events == front + [last] && last in events;
      assert forall e :: e in front ==> e in events;
    }
  }
}
