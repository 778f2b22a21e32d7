/** What rewriting a tunnel's rules does to the routes of every hostname (internal/cf/cf.go). */
module Routing {
  import opened Base
  import opened Listings
  import opened Ingress

  // ---- hoisting -----------------------------------------------------------------------------

  lemma {:induction false} PickedKinds(rules: seq<Rule>, managed: Services)
    ensures Picked(Picked(rules, managed), managed) == Picked(rules, managed)
        && Others(Picked(rules, managed), managed) == []
    ensures Others(Others(rules, managed), managed) == Others(rules, managed)
        && Picked(Others(rules, managed), managed) == []
  {
    if rules != [] {
      var r := rules[0];
      PickedKinds(rules[1..], managed);
      if Managed(r, managed) {
        assert ([r] + Picked(rules[1..], managed))[1..] == Picked(rules[1..], managed);
      } else {
        assert ([r] + Others(rules[1..], managed))[1..] == Others(rules[1..], managed);
      }
    }
  }

  lemma {:induction false} PickedAndOthers(rules: seq<Rule>, managed: Services)
    ensures multiset(Picked(rules, managed) + Others(rules, managed)) == multiset(rules)
  {
    if rules != [] {
      PickedAndOthers(rules[1..], managed);
      assert rules == [rules[0]] + rules[1..];
    }
  }

  /** Hoisting reorders the same rules, and stably: our rules keep their order and so do the
      others. */
  lemma HoistIsStable(rules: seq<Rule>, managed: Services)
    ensures multiset(Hoisted(rules, managed)) == multiset(rules)
    ensures Picked(Hoisted(rules, managed), managed) == Picked(rules, managed)
    ensures Others(Hoisted(rules, managed), managed) == Others(rules, managed)
  {
    var s := FirstShadow(rules);
    var a, tail := rules[..s], rules[s..];
    assert rules == a + tail;
    RegroupIsStable(a, tail, managed);
  }

  lemma RegroupIsStable(a: seq<Rule>, tail: seq<Rule>, managed: Services)
    ensures var out := a + Picked(tail, managed) + Others(tail, managed);
      && multiset(out) == multiset(a + tail)
      && Picked(out, managed) == Picked(a + tail, managed) && Others(out, managed) == Others(a + tail, managed)
  {
    var p, o := Picked(tail, managed), Others(tail, managed);
    PickedAndOthers(tail, managed);
    SameRules(a, p, o, tail);
    PickedKinds(tail, managed);
    PickedAppend(a, tail, managed);
    RegroupKinds(a, p, o, managed);
  }

  lemma SameRules(a: seq<Rule>, p: seq<Rule>, o: seq<Rule>, tail: seq<Rule>)
    requires multiset(p + o) == multiset(tail)
    ensures multiset(a + p + o) == multiset(a + tail)
  {
    AppendBehind(a, p, o);
  }

  lemma RegroupKinds(a: seq<Rule>, p: seq<Rule>, o: seq<Rule>, managed: Services)
    requires Picked(p, managed) == p && Others(p, managed) == [] && Picked(o, managed) == [] && Others(o, managed) == o
    ensures Picked(a + p + o, managed) == Picked(a, managed) + p && Others(a + p + o, managed) == Others(a, managed) + o
  {
    PickedAppend(a + p, o, managed);
    PickedAppend(a, p, managed);
  }

  /** Nothing of ours is left behind a shadow. */
  lemma HoistedAhead(rules: seq<Rule>, managed: Services)
    ensures var out := Hoisted(rules, managed);
      forall i :: FirstShadow(out) < i < |out| ==> !Managed(out[i], managed)
  {
    FirstShadowFacts(rules);
    var s, out := FirstShadow(rules), Hoisted(rules, managed);
    var tail := rules[s..];
    var p, o := Picked(tail, managed), Others(tail, managed);
    NoneOurs(tail, managed);
    FirstShadowFacts(out);
    if s < |rules| {
      assert tail[0] == rules[s] && o[0] == tail[0] && out[s + |p|] == o[0];
      AllOurs(tail, managed);
      forall i | 0 <= i < s + |p| ensures !Shadows(out[i]) {
        assert out[i] == if i < s then rules[i] else p[i - s];
      }
      FirstShadowIs(out, s + |p|);
      forall i | s + |p| < i < |out| ensures !Managed(out[i], managed) {
        assert out[i] == o[i - s - |p|];
      }
    }
  }

  lemma AllOurs(rules: seq<Rule>, managed: Services)
    ensures forall i :: 0 <= i < |Picked(rules, managed)| ==> Managed(Picked(rules, managed)[i], managed)
  {
    PickedAreManaged(rules, managed);
    forall i | 0 <= i < |Picked(rules, managed)| ensures Managed(Picked(rules, managed)[i], managed) {
      assert Picked(rules, managed)[i] in Picked(rules, managed);
    }
  }

  lemma {:induction false} NoneOurs(rules: seq<Rule>, managed: Services)
    ensures forall i :: 0 <= i < |Others(rules, managed)| ==> !Managed(Others(rules, managed)[i], managed)
  {
    if rules != [] {
      NoneOurs(rules[1..], managed);
    }
  }

  lemma {:induction false} OthersResolve(rules: seq<Rule>, managed: Services, x: Bytes)
    requires x !in managed
    ensures Resolve(Picked(rules, managed), x) == None && Resolve(Others(rules, managed), x) == Resolve(rules, x)
  {
    if rules != [] {
      var r := rules[0];
      OthersResolve(rules[1..], managed, x);
      if Managed(r, managed) {
        assert ([r] + Picked(rules[1..], managed))[1..] == Picked(rules[1..], managed);
      } else {
        assert ([r] + Others(rules[1..], managed))[1..] == Others(rules[1..], managed);
      }
    }
  }

  lemma HoistKeepsOthers(rules: seq<Rule>, managed: Services, x: Bytes)
    requires x !in managed
    ensures Resolve(Hoisted(rules, managed), x) == Resolve(rules, x)
  {
    var s := FirstShadow(rules);
    var a, tail := rules[..s], rules[s..];
    assert rules == a + tail;
    OthersResolve(tail, managed, x);
    ResolveAppend(a + Picked(tail, managed), Others(tail, managed), x);
    ResolveAppend(a, Picked(tail, managed), x);
    ResolveAppend(a, tail, x);
  }

  /** The rule at i serves x: it is x's first, and before every shadow. */
  predicate Ahead(rules: seq<Rule>, i: nat, x: Bytes, service: string) {
    i < |rules| && Names(rules[i], x) && rules[i].service == service
    && forall j :: 0 <= j < i ==> !Shadows(rules[j]) && !Names(rules[j], x)
  }

  ghost predicate Served(rules: seq<Rule>, x: Bytes, service: string) {
    exists i :: Ahead(rules, i, x, service)
  }

  lemma ServedResolves(rules: seq<Rule>, x: Bytes, service: string)
    requires Served(rules, x, service)
    ensures Resolve(rules, x) == Some(service)
  {
    var i :| Ahead(rules, i, x, service);
    ResolveAhead(rules, i, x);
  }

  predicate First(rules: seq<Rule>, x: Bytes, n: nat) {
    n < |rules| && Names(rules[n], x) && forall j :: 0 <= j < n ==> !Names(rules[j], x)
  }

  /** The first of ours with a name is first among ours too. */
  lemma {:induction false} FirstPicked(rules: seq<Rule>, managed: Services, x: Bytes, n: nat) returns (i: nat)
    requires x in managed && !IsShadow(x) && First(rules, x, n)
    ensures First(Picked(rules, managed), x, i) && Picked(rules, managed)[i] == rules[n]
    decreases n
  {
    if n == 0 {
      i := 0;
    } else {
      FirstDrop(rules, x, n, 1);
      i := FirstPicked(rules[1..], managed, x, n - 1);
      if Managed(rules[0], managed) {
        assert forall j :: 0 < j <= i + 1 ==> Picked(rules, managed)[j] == Picked(rules[1..], managed)[j - 1];
        i := i + 1;
      }
    }
  }

  lemma FirstDrop(rules: seq<Rule>, x: Bytes, n: nat, s: nat)
    requires First(rules, x, n) && s <= n
    ensures First(rules[s..], x, n - s) && rules[s..][n - s] == rules[n]
  {
    forall j | 0 <= j < n - s ensures !Names(rules[s..][j], x) {
      assert rules[s..][j] == rules[s + j];
    }
  }

  /** Hoisting puts a managed hostname's first rule in charge of it. */
  lemma HoistServes(rules: seq<Rule>, managed: Services, x: Bytes, n: nat)
    requires x in managed && !IsShadow(x) && First(rules, x, n)
    ensures Served(Hoisted(rules, managed), x, rules[n].service)
  {
    var s := FirstShadow(rules);
    FirstShadowFacts(rules);
    if n < s {
      FirstBeforeServes(rules[..s], Picked(rules[s..], managed), Others(rules[s..], managed), x, n);
    } else {
      FirstDrop(rules, x, n, s);
      FirstBehindServes(rules[..s], rules[s..], managed, x, n - s);
    }
  }

  lemma FirstBeforeServes(a: seq<Rule>, p: seq<Rule>, o: seq<Rule>, x: Bytes, n: nat)
    requires First(a, x, n) && forall j :: 0 <= j < |a| ==> !Shadows(a[j])
    ensures Served(a + p + o, x, a[n].service)
  {
    AheadAppend(a, p, n, x, a[n].service);
    ServedAppend(a + p, o, n, x, a[n].service);
  }

  lemma FirstBehindServes(a: seq<Rule>, tail: seq<Rule>, managed: Services, x: Bytes, n: nat)
    requires x in managed && !IsShadow(x) && First(tail, x, n)
    requires forall j :: 0 <= j < |a| ==> !Shadows(a[j]) && !Names(a[j], x)
    ensures Served(a + Picked(tail, managed) + Others(tail, managed), x, tail[n].service)
  {
    var p := Picked(tail, managed);
    var i := FirstPicked(tail, managed, x, n);
    AllOurs(tail, managed);
    AheadAfter(a, p, i, x, tail[n].service);
    ServedAppend(a + p, Others(tail, managed), |a| + i, x, tail[n].service);
  }

  lemma ServedAppend(a: seq<Rule>, b: seq<Rule>, i: nat, x: Bytes, service: string)
    requires Ahead(a, i, x, service)
    ensures Served(a + b, x, service)
  {
    AheadAppend(a, b, i, x, service);
  }

  lemma AheadAppend(a: seq<Rule>, b: seq<Rule>, i: nat, x: Bytes, service: string)
    requires Ahead(a, i, x, service)
    ensures Ahead(a + b, i, x, service)
  {
  }

  lemma AheadAfter(a: seq<Rule>, b: seq<Rule>, i: nat, x: Bytes, service: string)
    requires forall j :: 0 <= j < |a| ==> !Shadows(a[j]) && !Names(a[j], x)
    requires Ahead(b, i, x, service)
    ensures Ahead(a + b, |a| + i, x, service)
  {
    forall j | 0 <= j < |a| + i ensures !Shadows((a + b)[j]) && !Names((a + b)[j], x) {
      assert (a + b)[j] == if j < |a| then a[j] else b[j - |a|];
    }
  }

  // ---- rewriting, inserting, the catch-all ---------------------------------------------------

  /** No key of the services matches x, as its own name or as a wildcard. */
  ghost predicate Untouched(services: Services, x: Bytes) {
    forall h :: h in services ==> !HostMatches(h, x)
  }

  lemma {:induction false} RewriteKeepsOthers(rules: seq<Rule>, services: Services, x: Bytes)
    requires Untouched(services, x)
    ensures Resolve(Rewritten(rules, services), x) == Resolve(rules, x)
  {
    if rules != [] {
      assert Rewritten(rules, services)[1..] == Rewritten(rules[1..], services);
      RewriteKeepsOthers(rules[1..], services, x);
    }
  }

  lemma InsertKeepsOthers(rules: seq<Rule>, r: Rule, x: Bytes)
    requires !Matches(r, x)
    ensures Resolve(Inserted(rules, r), x) == Resolve(rules, x)
  {
    var s := FirstShadow(rules);
    assert rules == rules[..s] + rules[s..];
    ResolveAppend(rules[..s] + [r], rules[s..], x);
    ResolveAppend(rules[..s], [r], x);
    ResolveAppend(rules[..s], rules[s..], x);
  }

  lemma InsertKeepsServed(rules: seq<Rule>, r: Rule, x: Bytes, service: string)
    requires Served(rules, x, service) && !IsShadow(x)
    ensures Served(Inserted(rules, r), x, service)
  {
    FirstShadowFacts(rules);
    var i :| Ahead(rules, i, x, service);
    assert forall j :: 0 <= j <= i ==> Inserted(rules, r)[j] == rules[j];
    assert Ahead(Inserted(rules, r), i, x, service);
  }

  lemma InsertServes(rules: seq<Rule>, r: Rule)
    requires r.Rule? && !IsShadow(r.host) && !HasRule(rules, r.host)
    ensures Served(Inserted(rules, r), r.host, r.service)
  {
    FirstShadowFacts(rules);
    assert Ahead(Inserted(rules, r), FirstShadow(rules), r.host, r.service);
  }

  lemma CatchAllCatches(rules: seq<Rule>, x: Bytes)
    ensures Resolve(CatchAll(rules), x) == OrElse(Resolve(rules, x), Some("http_status:404"))
  {
    ResolveAppend(rules, [NotFound], x);
    if rules != [] && Names(rules[|rules| - 1], []) {
      assert rules == rules[..|rules| - 1] + [rules[|rules| - 1]];
      ResolveAppend(rules[..|rules| - 1], [rules[|rules| - 1]], x);
    }
  }

  lemma CatchAllKeepsServed(rules: seq<Rule>, x: Bytes, service: string)
    requires Served(rules, x, service)
    ensures Served(CatchAll(rules), x, service)
  {
    var i :| Ahead(rules, i, x, service);
    assert Ahead(CatchAll(rules), i, x, service);
  }

  lemma {:induction false} InsertAllKeepsOthers(rules: seq<Rule>, hosts: seq<Bytes>, services: Services, x: Bytes)
    requires AllIn(hosts, services)
    requires Untouched(services, x)
    ensures Resolve(InsertAll(rules, hosts, services), x) == Resolve(rules, x)
    decreases |hosts|
  {
    if hosts != [] {
      var n := |hosts| - 1;
      AllInFront(hosts, services);
      InsertAllKeepsOthers(rules, hosts[..n], services, x);
      InsertKeepsOthers(InsertAll(rules, hosts[..n], services), Rule(hosts[n], services[hosts[n]], ""), x);
    }
  }

  /** An exact hostname that was served, or had no rule and is among the inserted ones. */
  lemma {:induction false} InsertAllServes(rules: seq<Rule>, hosts: seq<Bytes>, services: Services, x: Bytes)
    requires AllIn(hosts, services)
    requires forall i, j :: 0 <= i < j < |hosts| ==> hosts[i] != hosts[j]
    requires x in services && !IsShadow(x)
    requires Served(rules, x, services[x]) || !HasRule(rules, x)
    ensures Served(rules, x, services[x]) || x in hosts ==> Served(InsertAll(rules, hosts, services), x, services[x])
    ensures !HasRule(rules, x) && x !in hosts ==> !HasRule(InsertAll(rules, hosts, services), x)
    decreases |hosts|
  {
    if hosts != [] {
      var n := |hosts| - 1;
      AllInFront(hosts, services);
      InsertAllServes(rules, hosts[..n], services, x);
      assert hosts == hosts[..n] + [hosts[n]];
      var before, r := InsertAll(rules, hosts[..n], services), Rule(hosts[n], services[hosts[n]], "");
      if Served(before, x, services[x]) {
        InsertKeepsServed(before, r, x, services[x]);
      } else if hosts[n] == x {
        InsertServes(before, r);
      } else {
        InsertAddsNoOther(before, r, x);
      }
    }
  }

  lemma InsertAddsNoOther(rules: seq<Rule>, r: Rule, x: Bytes)
    requires !HasRule(rules, x) && !Names(r, x)
    ensures !HasRule(Inserted(rules, r), x)
  {
    var s := FirstShadow(rules);
    forall i | 0 <= i < |Inserted(rules, r)| ensures !Names(Inserted(rules, r)[i], x) {
      assert Inserted(rules, r)[i] == if i < s then rules[i] else if i == s then r else rules[i - 1];
    }
  }

  // ---- SyncIngress ------------------------------------------------------------------------

  lemma HoistAddsNone(rules: seq<Rule>, managed: Services, x: Bytes)
    requires !HasRule(rules, x)
    ensures !HasRule(Hoisted(rules, managed), x)
  {
    HoistIsStable(rules, managed);
    var out := Hoisted(rules, managed);
    forall i | 0 <= i < |out| ensures !Names(out[i], x) {
      assert out[i] in multiset(out) && out[i] in multiset(rules);
    }
  }

  lemma SortedDistinct(hosts: seq<Bytes>)
    requires Sorted(ByName, hosts)
    ensures forall i, j :: 0 <= i < j < |hosts| ==> hosts[i] != hosts[j]
  {
    forall i, j | 0 <= i < j < |hosts| ensures hosts[i] != hosts[j] {
      assert ByName.Before(hosts[i], hosts[j]);
      LessTotal(hosts[i], hosts[j]);
    }
  }

  /** Every exact hostname asked for is served by what was asked. */
  lemma SyncServes(rules: seq<Rule>, services: Services, x: Bytes)
    requires x in services && !IsShadow(x)
    ensures Resolve(Synced(rules, services), x) == Some(services[x])
  {
    var hosts, hoisted := MissingHosts(rules, services), Hoisted(Rewritten(rules, services), services);
    if HasRule(rules, x) {
      RewrittenServes(rules, services, x);
    } else {
      RewrittenKeepsHosts(rules, services);
      HoistAddsNone(Rewritten(rules, services), services, x);
    }
    SortedDistinct(hosts);
    InsertAllServes(hoisted, hosts, services, x);
    if hosts != [] {
      CatchAllKeepsServed(InsertAll(hoisted, hosts, services), x, services[x]);
    }
    ServedResolves(Synced(rules, services), x, services[x]);
  }

  lemma RewrittenServes(rules: seq<Rule>, services: Services, x: Bytes)
    requires x in services && !IsShadow(x) && HasRule(rules, x)
    ensures Served(Hoisted(Rewritten(rules, services), services), x, services[x])
  {
    var w, n := Rewritten(rules, services), FirstNamed(rules, x);
    FirstNamedFacts(rules, x);
    forall j | 0 <= j < |rules| ensures Names(w[j], x) <==> Names(rules[j], x) {
    }
    HoistServes(w, services, x, n);
  }

  /** Every hostname that no key matches is served as before, or by the new catch-all if
      nothing matched it and one was called for. */
  lemma SyncKeepsOthers(rules: seq<Rule>, services: Services, x: Bytes)
    requires Untouched(services, x)
    ensures Resolve(Synced(rules, services), x)
         == OrElse(Resolve(rules, x), if MissingHosts(rules, services) == [] then None else Some("http_status:404"))
  {
    var w, hosts := Rewritten(rules, services), MissingHosts(rules, services);
    assert x !in services by {
      assert x in services ==> HostMatches(x, x);
    }
    RewriteKeepsOthers(rules, services, x);
    HoistKeepsOthers(w, services, x);
    InsertAllKeepsOthers(Hoisted(w, services), hosts, services, x);
    CatchAllCatches(InsertAll(Hoisted(w, services), hosts, services), x);
  }

  // ---- what becomes of each rule ------------------------------------------------------------

  /** A rule with the service its hostname is asked for, and everything else as it was. */
  function Kept(r: Rule, services: Services): Rule {
    match r
    case Opaque(_) => r
    case Rule(host, service, rest) => Rule(host, if host in services then services[host] else service, rest)
  }

  function KeptRules(rules: seq<Rule>, services: Services): (out: seq<Rule>)
    ensures |out| == |rules| && forall i :: 0 <= i < |rules| ==> out[i] == Kept(rules[i], services)
  {
    seq(|rules|, i requires 0 <= i < |rules| => Kept(rules[i], services))
  }

  ghost function NewRules(hosts: seq<Bytes>, services: Services): multiset<Rule>
    requires AllIn(hosts, services)
  {
    if hosts == [] then multiset{}
    else
      var n := |hosts| - 1;
      AllInFront(hosts, services);
      NewRules(hosts[..n], services) + multiset{Rule(hosts[n], services[hosts[n]], "")}
  }

  lemma {:induction false} InsertAllAdds(rules: seq<Rule>, hosts: seq<Bytes>, services: Services)
    requires AllIn(hosts, services)
    ensures multiset(InsertAll(rules, hosts, services)) == multiset(rules) + NewRules(hosts, services)
    decreases |hosts|
  {
    if hosts != [] {
      var n := |hosts| - 1;
      AllInFront(hosts, services);
      InsertAllAdds(rules, hosts[..n], services);
      InsertAdds(InsertAll(rules, hosts[..n], services), Rule(hosts[n], services[hosts[n]], ""));
    }
  }

  lemma InsertAdds(rules: seq<Rule>, r: Rule)
    ensures multiset(Inserted(rules, r)) == multiset(rules) + multiset{r}
  {
    var s := FirstShadow(rules);
    assert rules == rules[..s] + rules[s..];
  }

  /** No rule is lost, and none loses anything but its service: a sync leaves exactly the rules
      there were, each with the service asked for its hostname, one new rule for every hostname
      without one, and at most the catch-all, which is then last. */
  lemma SyncConserves(rules: seq<Rule>, services: Services)
    ensures var out, hosts := Synced(rules, services), MissingHosts(rules, services);
      var kept := multiset(KeptRules(rules, services)) + NewRules(hosts, services);
      && (multiset(out) == kept
          || (hosts != [] && multiset(out) == kept + multiset{Rule([], "http_status:404", "")}))
      && (hosts != [] ==> out != [] && Names(out[|out| - 1], []))
  {
    var hoisted, hosts := Hoisted(Rewritten(rules, services), services), MissingHosts(rules, services);
    HoistedKeeps(rules, services);
    InsertAllAdds(hoisted, hosts, services);
    CatchAllAdds(InsertAll(hoisted, hosts, services));
  }

  lemma HoistedKeeps(rules: seq<Rule>, services: Services)
    ensures multiset(Hoisted(Rewritten(rules, services), services)) == multiset(KeptRules(rules, services))
  {
    HoistIsStable(Rewritten(rules, services), services);
    assert Rewritten(rules, services) == KeptRules(rules, services);
  }

  lemma CatchAllAdds(rules: seq<Rule>)
    ensures var out := CatchAll(rules);
      && (out == rules || multiset(out) == multiset(rules) + multiset{Rule([], "http_status:404", "")})
      && out != [] && Names(out[|out| - 1], [])
  {
  }

  /** Ensuring one hostname: its first rule gets the service and keeps the rest, or there is one
      new rule and at most the catch-all; every other rule is as it was. */
  lemma EnsureConserves(rules: seq<Rule>, h: Bytes, service: string)
    ensures var out, i := Ensured(rules, h, service), FirstNamed(rules, h);
      if HasRule(rules, h) then
        && i < |rules| && Names(rules[i], h)
        && multiset(out) == multiset(rules[i := Rule(h, service, rules[i].rest)])
      else
        var kept := multiset(rules) + multiset{Rule(h, service, "")};
        && (multiset(out) == kept || multiset(out) == kept + multiset{Rule([], "http_status:404", "")})
        && out != [] && Names(out[|out| - 1], [])
  {
    FirstNamedFacts(rules, h);
    var i := FirstNamed(rules, h);
    if i < |rules| {
      HoistIsStable(rules[i := rules[i].(service := service)], map[h := service]);
    } else {
      InsertAdds(rules, Rule(h, service, ""));
      CatchAllAdds(Inserted(rules, Rule(h, service, "")));
    }
  }

  // ---- a second sync ----------------------------------------------------------------------

  predicate WellServed(r: Rule, services: Services) {
    r.Rule? && r.host in services ==> r.service == services[r.host]
  }

  /** Rules a sync has nothing to rewrite or hoist in. */
  predicate Settled(rules: seq<Rule>, services: Services) {
    (forall i :: 0 <= i < |rules| ==> WellServed(rules[i], services))
    && forall i :: FirstShadow(rules) < i < |rules| ==> !Managed(rules[i], services)
  }

  lemma HoistedSettled(rules: seq<Rule>, services: Services)
    ensures Settled(Hoisted(Rewritten(rules, services), services), services)
  {
    var w := Rewritten(rules, services);
    var out := Hoisted(w, services);
    HoistedAhead(w, services);
    HoistIsStable(w, services);
    forall i | 0 <= i < |out| ensures WellServed(out[i], services) {
      assert out[i] in multiset(out) && out[i] in multiset(w);
      var k :| 0 <= k < |w| && w[k] == out[i];
      assert w[k] == RewriteRule(rules[k], services);
    }
  }

  lemma InsertedSettled(rules: seq<Rule>, r: Rule, services: Services)
    requires Settled(rules, services) && r.Rule? && WellServed(r, services)
    ensures Settled(Inserted(rules, r), services)
  {
    FirstShadowFacts(rules);
    FirstShadowFacts(Inserted(rules, r));
    var s, out := FirstShadow(rules), Inserted(rules, r);
    forall i | 0 <= i < |out| ensures out[i] == (if i < s then rules[i] else if i == s then r else rules[i - 1]) {
    }
    forall i | FirstShadow(out) < i < |out| ensures !Managed(out[i], services) {
      if i == s + 1 && s < |rules| {
        assert Shadows(rules[s]) && out[i] == rules[s];
      }
    }
  }

  lemma {:induction false} InsertAllSettled(rules: seq<Rule>, hosts: seq<Bytes>, services: Services)
    requires AllIn(hosts, services)
    requires Settled(rules, services)
    ensures Settled(InsertAll(rules, hosts, services), services)
    decreases |hosts|
  {
    if hosts != [] {
      var n := |hosts| - 1;
      AllInFront(hosts, services);
      InsertAllSettled(rules, hosts[..n], services);
      InsertedSettled(InsertAll(rules, hosts[..n], services), Rule(hosts[n], services[hosts[n]], ""), services);
    }
  }

  lemma CatchAllSettled(rules: seq<Rule>, services: Services)
    requires Settled(rules, services)
    requires CatchAll(rules) != rules ==> WellServed(NotFound, services)
    ensures Settled(CatchAll(rules), services)
  {
    FirstShadowFacts(rules);
    FirstShadowFacts(CatchAll(rules));
    var out := CatchAll(rules);
    forall i | 0 <= i < |out| ensures out[i] == (if i < |rules| then rules[i] else NotFound) {
    }
    assert FirstShadow(rules) < |rules| ==> FirstShadow(out) == FirstShadow(rules);
  }

  lemma {:induction false} InsertAllHas(rules: seq<Rule>, hosts: seq<Bytes>, services: Services, x: Bytes)
    requires AllIn(hosts, services)
    requires HasRule(rules, x) || x in hosts
    ensures HasRule(InsertAll(rules, hosts, services), x)
    decreases |hosts|
  {
    if hosts != [] {
      var n := |hosts| - 1;
      AllInFront(hosts, services);
      assert hosts == hosts[..n] + [hosts[n]];
      var before, r := InsertAll(rules, hosts[..n], services), Rule(hosts[n], services[hosts[n]], "");
      var s := FirstShadow(before);
      assert Names(Inserted(before, r)[s], hosts[n]);
      if hosts[n] != x {
        InsertAllHas(rules, hosts[..n], services, x);
        var k :| 0 <= k < |before| && Names(before[k], x);
        assert Names(Inserted(before, r)[if k < s then k else k + 1], x);
      }
    }
  }

  lemma HoistKeepsRule(rules: seq<Rule>, managed: Services, x: Bytes)
    requires HasRule(rules, x)
    ensures HasRule(Hoisted(rules, managed), x)
  {
    HoistIsStable(rules, managed);
    var k :| 0 <= k < |rules| && Names(rules[k], x);
    var out := Hoisted(rules, managed);
    assert rules[k] in multiset(rules) && rules[k] in multiset(out);
    var i :| 0 <= i < |out| && out[i] == rules[k];
  }

  /** A sync appends the catch-all although the caller manages it, with another service: the
      empty string is a key, and another key has no rule. */
  ghost predicate AppendsManaged(rules: seq<Rule>, services: Services) {
    var hosts := MissingHosts(rules, services);
    var up := InsertAll(Hoisted(Rewritten(rules, services), services), hosts, services);
    [] in services && hosts != [] && CatchAll(up) != up && services[[]] != NotFound.service
  }

  /** Once synced, a tunnel's rules have nothing for the same services to change: a second
      sync reports no hostname and changes nothing, exactly unless the first one appended a
      catch-all that the caller manages. */
  lemma SecondSyncIsQuiet(rules: seq<Rule>, services: Services)
    ensures var out := Synced(rules, services);
      && ((forall h :: h in services ==> !Differs(out, services, h)) <==> !AppendsManaged(rules, services))
      && (Synced(out, services) == out <==> !AppendsManaged(rules, services))
  {
    if AppendsManaged(rules, services) {
      SecondSyncRewrites(rules, services);
    } else {
      var out := Synced(rules, services);
      SyncedSettled(rules, services);
      forall h | h in services ensures !Differs(out, services, h) {
        SyncedHas(rules, services, h);
        SettledIsQuiet(out, services, h);
      }
      QuietWhenSettled(out, services);
    }
  }

  /** A sync changes nothing exactly when no hostname's rules differ from what is asked. */
  lemma SyncChangesIff(rules: seq<Rule>, services: Services)
    ensures Synced(rules, services) == rules <==> forall h :: h in services ==> !Differs(rules, services, h)
  {
    if forall h :: h in services ==> !Differs(rules, services, h) {
      QuietWhenSettled(rules, services);
    } else if Synced(rules, services) == rules {
      forall h | h in services ensures HasRule(rules, h) {
        SyncedHas(rules, services, h);
      }
      SyncSettles(rules, services);
      forall h | h in services ensures !Differs(rules, services, h) {
        SettledIsQuiet(rules, services, h);
      }
    }
  }

  lemma SyncedSettled(rules: seq<Rule>, services: Services)
    requires !AppendsManaged(rules, services)
    ensures Settled(Synced(rules, services), services)
  {
    var hosts, hoisted := MissingHosts(rules, services), Hoisted(Rewritten(rules, services), services);
    HoistedSettled(rules, services);
    InsertAllSettled(hoisted, hosts, services);
    if hosts != [] {
      CatchAllSettled(InsertAll(hoisted, hosts, services), services);
    }
  }

  /** The catch-all appended is still there after the second sync, or rewritten by it. */
  lemma SecondSyncRewrites(rules: seq<Rule>, services: Services)
    requires AppendsManaged(rules, services)
    ensures var out := Synced(rules, services);
      Differs(out, services, []) && Synced(out, services) != out
  {
    var out := Synced(rules, services);
    var n := |out| - 1;
    assert out[n] == NotFound && Names(out[n], []);
    forall h | h in services ensures HasRule(out, h) {
      SyncedHas(rules, services, h);
    }
    SyncSettles(out, services);
    assert !WellServed(out[n], services);
  }

  lemma SyncSettles(rules: seq<Rule>, services: Services)
    requires forall h :: h in services ==> HasRule(rules, h)
    ensures Settled(Synced(rules, services), services)
  {
    HeadIn(MissingHosts(rules, services));
    HoistedSettled(rules, services);
  }

  lemma OnlyEmpty(hosts: seq<Bytes>)
    requires [] in hosts && forall h :: h in hosts ==> h == []
    requires forall i, j :: 0 <= i < j < |hosts| ==> hosts[i] != hosts[j]
    ensures hosts == [[]]
  {
    assert forall i :: 0 <= i < |hosts| ==> hosts[i] in hosts;
    assert hosts[0] == hosts[|hosts| - 1] == [];
  }

  /** Such an input: one wildcard rule, and the empty string the only hostname asked for. */
  lemma EmptyKeyIsRewritten(service: string)
    requires service != NotFound.service
    ensures AppendsManaged([Rule(StarDot + [97], "w", "")], map[[] := service])
  {
    var rules, services := [Rule(StarDot + [97], "w", "")], map[[] := service];
    var hosts := MissingHosts(rules, services);
    SortedDistinct(hosts);
    assert !HasRule(rules, []) && [] in hosts;
    OnlyEmpty(hosts);
    assert Rewritten(rules, services) == rules;
    NothingToHoist(rules, services);
    FirstShadowIs(rules, 0);
    assert hosts[..0] == [];
    assert InsertAll(rules, hosts, services) == Inserted(rules, Rule([], service, ""))
        == [Rule([], service, "")] + rules;
  }

  lemma SyncedHas(rules: seq<Rule>, services: Services, h: Bytes)
    requires h in services
    ensures HasRule(Synced(rules, services), h)
  {
    var w, hosts := Rewritten(rules, services), MissingHosts(rules, services);
    var hoisted := Hoisted(w, services);
    RewrittenKeepsHosts(rules, services);
    if HasRule(w, h) {
      HoistKeepsRule(w, services, h);
    }
    InsertAllHas(hoisted, hosts, services, h);
    CatchAllHas(InsertAll(hoisted, hosts, services), h);
  }

  lemma CatchAllHas(rules: seq<Rule>, h: Bytes)
    requires HasRule(rules, h)
    ensures HasRule(CatchAll(rules), h)
  {
    var k :| 0 <= k < |rules| && Names(rules[k], h);
    assert Names(CatchAll(rules)[k], h);
  }

  lemma SettledIsQuiet(rules: seq<Rule>, services: Services, h: Bytes)
    requires Settled(rules, services) && h in services && HasRule(rules, h)
    ensures !Differs(rules, services, h)
  {
    forall i | 0 <= i < |rules| && Names(rules[i], h) ensures rules[i].service == services[h] {
      assert WellServed(rules[i], services);
    }
    forall i | FirstShadow(rules) < i < |rules| && !IsShadow(h) ensures !Names(rules[i], h) {
      assert !Managed(rules[i], services);
    }
  }

  // ---- EnsureIngress and RemoveIngress ------------------------------------------------------

  lemma EnsureServes(rules: seq<Rule>, h: Bytes, service: string)
    requires !IsShadow(h)
    ensures Resolve(Ensured(rules, h, service), h) == Some(service)
  {
    FirstNamedFacts(rules, h);
    var i := FirstNamed(rules, h);
    if i < |rules| {
      var w := rules[i := rules[i].(service := service)];
      assert Names(w[i], h) && forall j :: 0 <= j < i ==> w[j] == rules[j];
      HoistServes(w, map[h := service], h, i);
    } else {
      InsertServes(rules, Rule(h, service, ""));
      CatchAllKeepsServed(Inserted(rules, Rule(h, service, "")), h, service);
    }
    ServedResolves(Ensured(rules, h, service), h, service);
  }

  lemma {:induction false} UpdateKeepsOthers(rules: seq<Rule>, i: nat, service: string, x: Bytes)
    requires i < |rules| && rules[i].Rule? && !HostMatches(rules[i].host, x)
    ensures Resolve(rules[i := rules[i].(service := service)], x) == Resolve(rules, x)
    decreases i
  {
    var w := rules[i := rules[i].(service := service)];
    if i == 0 {
      assert w[1..] == rules[1..];
    } else {
      assert w[1..] == rules[1..][i - 1 := rules[i].(service := service)];
      UpdateKeepsOthers(rules[1..], i - 1, service, x);
    }
  }

  lemma EnsureKeepsOthers(rules: seq<Rule>, h: Bytes, service: string, x: Bytes)
    requires !HostMatches(h, x)
    ensures Resolve(Ensured(rules, h, service), x)
         == OrElse(Resolve(rules, x), if HasRule(rules, h) then None else Some("http_status:404"))
  {
    FirstNamedFacts(rules, h);
    var i := FirstNamed(rules, h);
    if i < |rules| {
      UpdateKeepsOthers(rules, i, service, x);
      HoistKeepsOthers(rules[i := rules[i].(service := service)], map[h := service], x);
    } else {
      InsertKeepsOthers(rules, Rule(h, service, ""), x);
      CatchAllCatches(Inserted(rules, Rule(h, service, "")), x);
    }
  }

  lemma {:induction false} RemoveKeepsOthers(rules: seq<Rule>, h: Bytes, x: Bytes)
    requires !HostMatches(h, x)
    ensures Resolve(Without(rules, h), x) == Resolve(rules, x)
  {
    if rules != [] {
      RemoveKeepsOthers(rules[1..], h, x);
      if !Names(rules[0], h) {
        assert Without(rules, h)[1..] == Without(rules[1..], h);
      }
    }
  }

  lemma HasRuleFront(rules: seq<Rule>, h: Bytes)
    requires rules != []
    ensures HasRule(rules, h) <==> Names(rules[0], h) || HasRule(rules[1..], h)
  {
    if HasRule(rules[1..], h) {
      var k :| 0 <= k < |rules[1..]| && Names(rules[1..][k], h);
      assert Names(rules[k + 1], h);
    }
    if HasRule(rules, h) && !Names(rules[0], h) {
      var k :| 0 <= k < |rules| && Names(rules[k], h);
      assert Names(rules[1..][k - 1], h);
    }
  }

  lemma {:induction false} RemoveRemoves(rules: seq<Rule>, h: Bytes)
    ensures !HasRule(Without(rules, h), h)
    ensures !HasRule(rules, h) ==> Without(rules, h) == rules
  {
    if rules != [] {
      RemoveRemoves(rules[1..], h);
      HasRuleFront(rules, h);
      if !Names(rules[0], h) {
        HasRuleFront(Without(rules, h), h);
        assert Without(rules, h)[1..] == Without(rules[1..], h);
      }
    }
  }

  /** Removing a hostname undoes ensuring it, but for the catch-all that stays. */
  lemma RemoveUndoesEnsure(rules: seq<Rule>, h: Bytes, service: string)
    requires !HasRule(rules, h) && h != []
    ensures Without(Ensured(rules, h, service), h) == CatchAll(rules)
  {
    FirstNamedFacts(rules, h);
    var r := Rule(h, service, "");
    InsertRemoved(rules, r);
    CatchAllInserted(rules, r);
    NotFoundStays(Inserted(rules, r), h);
  }

  lemma InsertRemoved(rules: seq<Rule>, r: Rule)
    requires r.Rule? && !HasRule(rules, r.host)
    ensures Without(Inserted(rules, r), r.host) == rules
  {
    var s := FirstShadow(rules);
    InsertUndone(rules[..s], r, rules[s..]);
    assert rules == rules[..s] + rules[s..];
    RemoveRemoves(rules, r.host);
  }

  lemma NotFoundStays(rules: seq<Rule>, h: Bytes)
    requires h != []
    ensures Without(rules + [NotFound], h) == Without(rules, h) + [NotFound]
  {
    WithoutAppend(rules, [NotFound], h);
    assert Without([NotFound], h) == [NotFound];
  }

  lemma CatchAllInserted(rules: seq<Rule>, r: Rule)
    requires r.Rule? && r.host != []
    ensures CatchAll(Inserted(rules, r)) == if CatchAll(rules) == rules then Inserted(rules, r)
        else Inserted(rules, r) + [NotFound]
  {
    var out, n := Inserted(rules, r), |rules|;
    FirstShadowFacts(rules);
    if n > 0 && Names(rules[n - 1], []) {
      assert Shadows(rules[n - 1]) && out[n] == rules[n - 1];
    } else if n > 0 {
      assert out[n] == r || out[n] == rules[n - 1];
    }
  }

  lemma InsertUndone(a: seq<Rule>, r: Rule, b: seq<Rule>)
    requires r.Rule?
    ensures Without(a + [r] + b, r.host) == Without(a + b, r.host)
  {
    WithoutAppend(a + [r], b, r.host);
    WithoutAppend(a, [r], r.host);
    WithoutAppend(a, b, r.host);
    assert Without([r], r.host) == [];
  }
}
