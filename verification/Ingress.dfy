/** A shared tunnel's ingress rules, rewritten in place (internal/cf/cf.go). cloudflared
    serves a hostname by the first rule that matches it. */
module Ingress {
  import opened Base
  import opened Listings

  /** An entry of the list: an object ("" when it names no hostname), or something else. */
  datatype Rule = Rule(host: Bytes, service: string, rest: string) | Opaque(raw: string)

  /** Hostname to service. */
  type Services = map<Bytes, string>

  const StarDot: Bytes := [42, 46]

  predicate IsShadow(h: Bytes) {
    h == [] || StarDot <= h
  }

  predicate Shadows(r: Rule) {
    r.Rule? && IsShadow(r.host)
  }

  predicate Names(r: Rule, h: Bytes) {
    r.Rule? && r.host == h
  }

  // ---- what a rule list means -------------------------------------------------------------

  predicate EndsWith(x: Bytes, t: Bytes) {
    |t| <= |x| && x[|x| - |t|..] == t
  }

  /** No hostname matches all; "*.zone" matches what ends in ".zone". */
  predicate HostMatches(h: Bytes, x: Bytes) {
    h == [] || h == x || (StarDot <= h && EndsWith(x, h[1..]))
  }

  /** A wildcard matches what has anything in front of its zone's dot. */
  lemma WildcardMatches(zone: Bytes, x: Bytes)
    ensures HostMatches(StarDot + zone, x) <==> exists front: Bytes :: x == front + [46] + zone
  {
    var t := [46] + zone;
    assert (StarDot + zone)[1..] == t;
    if EndsWith(x, t) {
      var front := x[..|x| - |t|];
      assert x == front + [46] + zone;
    }
    if front: Bytes :| x == front + [46] + zone {
      assert x[|x| - |t|..] == t;
    }
    assert StarDot + zone == [42] + [46] + zone;
  }

  predicate Matches(r: Rule, x: Bytes) {
    r.Rule? && HostMatches(r.host, x)
  }

  function Resolve(rules: seq<Rule>, x: Bytes): Option<string> {
    if rules == [] then None
    else if Matches(rules[0], x) then Some(rules[0].service)
    else Resolve(rules[1..], x)
  }

  function OrElse(a: Option<string>, b: Option<string>): Option<string> {
    if a.Some? then a else b
  }

  lemma {:induction false} ResolveAppend(a: seq<Rule>, b: seq<Rule>, x: Bytes)
    ensures Resolve(a + b, x) == OrElse(Resolve(a, x), Resolve(b, x))
    decreases |a|
  {
    if a == [] {
      assert a + b == b;
    } else {
      assert (a + b)[1..] == a[1..] + b;
      ResolveAppend(a[1..], b, x);
    }
  }

  /** An exact hostname is served by its first rule, as long as that is before every shadow. */
  lemma {:induction false} ResolveAhead(rules: seq<Rule>, i: nat, x: Bytes)
    requires i < |rules| && Names(rules[i], x)
    requires forall j :: 0 <= j < i ==> !Shadows(rules[j]) && !Names(rules[j], x)
    ensures Resolve(rules, x) == Some(rules[i].service)
    decreases i
  {
    if i > 0 {
      assert !Shadows(rules[0]) && !Names(rules[0], x);
      forall j | 0 <= j < i - 1 ensures !Shadows(rules[1..][j]) && !Names(rules[1..][j], x) {
        assert rules[1..][j] == rules[j + 1];
      }
      ResolveAhead(rules[1..], i - 1, x);
    }
  }

  lemma {:induction false} UnmatchedResolve(rules: seq<Rule>, x: Bytes)
    requires forall i :: 0 <= i < |rules| ==> !Matches(rules[i], x)
    ensures Resolve(rules, x) == None
  {
    if rules != [] {
      UnmatchedResolve(rules[1..], x);
    }
  }

  // ---- the helpers ---------------------------------------------------------------------

  function FirstShadow(rules: seq<Rule>): (s: nat)
    ensures s <= |rules|
  {
    if rules == [] || Shadows(rules[0]) then 0 else FirstShadow(rules[1..]) + 1
  }

  /** The index of the first wildcard or catch-all rule, or the length for none. */
  lemma {:induction false} FirstShadowFacts(rules: seq<Rule>)
    ensures forall i :: 0 <= i < FirstShadow(rules) ==> !Shadows(rules[i])
    ensures FirstShadow(rules) < |rules| ==> Shadows(rules[FirstShadow(rules)])
  {
    if rules != [] && !Shadows(rules[0]) {
      FirstShadowFacts(rules[1..]);
      assert forall i :: 0 < i < |rules| ==> rules[i] == rules[1..][i - 1];
    }
  }

  lemma FirstShadowIs(rules: seq<Rule>, s: nat)
    requires s <= |rules| && (s < |rules| ==> Shadows(rules[s])) && forall i :: 0 <= i < s ==> !Shadows(rules[i])
    ensures FirstShadow(rules) == s
  {
    FirstShadowFacts(rules);
  }

  method FindShadow(rules: seq<Rule>) returns (s: nat)
    ensures s == FirstShadow(rules)
  {
    s := 0;
    while s < |rules| && !Shadows(rules[s])
      invariant s <= |rules| && forall i :: 0 <= i < s ==> !Shadows(rules[i])
    {
      s := s + 1;
    }
    FirstShadowIs(rules, s);
  }

  function Inserted(rules: seq<Rule>, r: Rule): seq<Rule> {
    rules[..FirstShadow(rules)] + [r] + rules[FirstShadow(rules)..]
  }

  method InsertIngress(rules: seq<Rule>, r: Rule) returns (out: seq<Rule>)
    ensures out == Inserted(rules, r)
  {
    var at := FindShadow(rules);
    out := rules[..at] + [r] + rules[at..];
  }

  const NotFound := Rule([], "http_status:404", "")

  function CatchAll(rules: seq<Rule>): seq<Rule> {
    if rules != [] && Names(rules[|rules| - 1], []) then rules else rules + [NotFound]
  }

  /** A rule of ours: an exact hostname the caller manages. */
  predicate Managed(r: Rule, managed: Services) {
    r.Rule? && r.host in managed && !IsShadow(r.host)
  }

  function Picked(rules: seq<Rule>, managed: Services): seq<Rule> {
    if rules == [] then []
    else if Managed(rules[0], managed) then [rules[0]] + Picked(rules[1..], managed)
    else Picked(rules[1..], managed)
  }

  function Others(rules: seq<Rule>, managed: Services): seq<Rule> {
    if rules == [] then []
    else if Managed(rules[0], managed) then Others(rules[1..], managed)
    else [rules[0]] + Others(rules[1..], managed)
  }

  /** Ours from behind the first shadow go right before it; both kinds keep their order. */
  function Hoisted(rules: seq<Rule>, managed: Services): seq<Rule> {
    var s := FirstShadow(rules);
    rules[..s] + Picked(rules[s..], managed) + Others(rules[s..], managed)
  }

  lemma {:induction false} PickedAreManaged(rules: seq<Rule>, managed: Services)
    ensures forall r :: r in Picked(rules, managed) <==> r in rules && Managed(r, managed)
  {
    if rules != [] {
      PickedAreManaged(rules[1..], managed);
      assert rules == [rules[0]] + rules[1..];
    }
  }

  lemma {:induction false} NonePicked(rules: seq<Rule>, managed: Services)
    requires forall i :: 0 <= i < |rules| ==> !Managed(rules[i], managed)
    ensures Picked(rules, managed) == [] && Others(rules, managed) == rules
  {
    if rules != [] {
      NonePicked(rules[1..], managed);
    }
  }

  lemma {:induction false} PickedAppend(a: seq<Rule>, b: seq<Rule>, managed: Services)
    ensures Picked(a + b, managed) == Picked(a, managed) + Picked(b, managed)
    ensures Others(a + b, managed) == Others(a, managed) + Others(b, managed)
    decreases |a|
  {
    if a == [] {
      assert a + b == b;
    } else {
      var rest := a[1..];
      assert (a + b)[1..] == rest + b;
      PickedAppend(rest, b, managed);
      AppendBehind([a[0]], Picked(rest, managed), Picked(b, managed));
      AppendBehind([a[0]], Others(rest, managed), Others(b, managed));
    }
  }

  lemma SplitAtShadow(a: seq<Rule>, tail: seq<Rule>, managed: Services)
    requires forall i :: 0 <= i < |a| ==> !Shadows(a[i])
    requires tail != [] && Shadows(tail[0])
    ensures FirstShadow(a + tail) == |a| && (a + tail)[|a|..] == tail
    ensures Hoisted(a + tail, managed) == a + Picked(tail, managed) + Others(tail, managed)
  {
    assert (a + tail)[|a|] == tail[0];
    FirstShadowIs(a + tail, |a|);
    assert (a + tail)[..|a|] == a;
  }

  lemma PickOne(before: seq<Rule>, m: Rule, after: seq<Rule>, managed: Services)
    requires Managed(m, managed) && forall i :: 0 <= i < |before| ==> !Managed(before[i], managed)
    ensures Picked(before + [m] + after, managed) == [m] + Picked(before + after, managed)
    ensures Others(before + [m] + after, managed) == Others(before + after, managed)
  {
    assert before + [m] + after == before + ([m] + after);
    NonePicked(before, managed);
    PickedAppend(before, [m] + after, managed);
    PickedAppend(before, after, managed);
    PickedAppend([m], after, managed);
    assert Picked([m], managed) == [m] && Others([m], managed) == [];
  }

  lemma HoistAround(a: seq<Rule>, before: seq<Rule>, m: Rule, after: seq<Rule>, managed: Services)
    requires forall i :: 0 <= i < |a| ==> !Shadows(a[i])
    requires before != [] && Shadows(before[0]) && forall i :: 0 <= i < |before| ==> !Managed(before[i], managed)
    requires Managed(m, managed)
    ensures var next, tail := Inserted(a + (before + after), m), before + [m] + after;
      && next == (a + [m]) + (before + after) && FirstShadow(next) == |a| + 1
      && Picked(tail, managed) == [m] + Picked(next[|a| + 1..], managed)
      && Hoisted(next, managed) == Hoisted(a + tail, managed)
  {
    PickOne(before, m, after, managed);
    SplitAtShadow(a, before + [m] + after, managed);
    SplitAtShadow(a, before + after, managed);
    var next := Inserted(a + (before + after), m);
    assert next == (a + [m]) + (before + after);
    SplitAtShadow(a + [m], before + after, managed);
  }

  lemma Cut<T>(r: seq<T>, s: nat, i: nat)
    requires s < i < |r|
    ensures r[s..] == r[s..i] + [r[i]] + r[i + 1..]
    ensures r == r[..s] + (r[s..i] + [r[i]] + r[i + 1..])
    ensures r[..i] + r[i + 1..] == r[..s] + (r[s..i] + r[i + 1..])
  {
  }

  /** One round of the loop: the first of ours after the shadow moves to just before it. */
  lemma HoistStep(rules: seq<Rule>, managed: Services, idx: nat)
    requires FirstShadow(rules) < idx < |rules| && Managed(rules[idx], managed)
    requires forall i :: FirstShadow(rules) < i < idx ==> !Managed(rules[i], managed)
    ensures var next := Inserted(rules[..idx] + rules[idx + 1..], rules[idx]);
      && Picked(rules[FirstShadow(rules)..], managed) == [rules[idx]] + Picked(next[FirstShadow(next)..], managed)
      && Hoisted(next, managed) == Hoisted(rules, managed)
  {
    var s, m := FirstShadow(rules), rules[idx];
    var a, before, after := rules[..s], rules[s..idx], rules[idx + 1..];
    FirstShadowFacts(rules);
    forall i | 0 <= i < |before| ensures !Managed(before[i], managed) {
      assert before[i] == rules[s + i];
    }
    Cut(rules, s, idx);
    HoistAround(a, before, m, after, managed);
  }

  /** The first of ours at or after from. */
  method FindManaged(rules: seq<Rule>, start: nat, managed: Services) returns (idx: nat)
    ensures start <= idx && forall i :: start <= i < idx && i < |rules| ==> !Managed(rules[i], managed)
    ensures idx < |rules| ==> Managed(rules[idx], managed)
  {
    idx := start;
    while idx < |rules| && !Managed(rules[idx], managed)
      invariant start <= idx && forall i :: start <= i < idx && i < |rules| ==> !Managed(rules[i], managed)
    {
      idx := idx + 1;
    }
  }

  lemma NothingToHoist(rules: seq<Rule>, managed: Services)
    requires forall i :: FirstShadow(rules) < i < |rules| ==> !Managed(rules[i], managed)
    ensures Picked(rules[FirstShadow(rules)..], managed) == [] && Hoisted(rules, managed) == rules
  {
    var s := FirstShadow(rules);
    var a, tail := rules[..s], rules[s..];
    assert rules == a + tail;
    FirstShadowFacts(rules);
    assert tail != [] ==> tail[0] == rules[s];
    forall i | 0 <= i < |tail| ensures !Managed(tail[i], managed) {
      assert tail[i] == rules[s + i];
    }
    NonePicked(tail, managed);
    assert a + [] == a;
  }

  ghost predicate HostsOf(hosts: seq<Bytes>, rules: seq<Rule>) {
    |hosts| == |rules| && forall k :: 0 <= k < |rules| ==> Names(rules[k], hosts[k])
  }

  lemma HostsGrow(moved: seq<Bytes>, picked: seq<Rule>, r: Rule)
    requires HostsOf(moved, picked) && r.Rule?
    ensures HostsOf(moved + [r.host], picked + [r])
  {
  }

  /** Takes the rule at idx out and inserts it again. */
  method HoistOne(rules: seq<Rule>, managed: Services, idx: nat) returns (next: seq<Rule>)
    requires FirstShadow(rules) < idx < |rules| && Managed(rules[idx], managed)
    requires forall i :: FirstShadow(rules) < i < idx ==> !Managed(rules[i], managed)
    ensures Hoisted(next, managed) == Hoisted(rules, managed)
    ensures Picked(rules[FirstShadow(rules)..], managed) == [rules[idx]] + Picked(next[FirstShadow(next)..], managed)
  {
    HoistStep(rules, managed, idx);
    next := InsertIngress(rules[..idx] + rules[idx + 1..], rules[idx]);
  }

  method HoistIngress(rules0: seq<Rule>, managed: Services) returns (rules: seq<Rule>, moved: seq<Bytes>)
    ensures rules == Hoisted(rules0, managed)
    ensures HostsOf(moved, Picked(rules0[FirstShadow(rules0)..], managed))
  {
    rules, moved := rules0, [];
    ghost var picked, left: seq<Rule> := [], Picked(rules[FirstShadow(rules)..], managed);
    ghost var all := left;
    assert [] + left == left;
    while true
      invariant Hoisted(rules, managed) == Hoisted(rules0, managed)
      invariant left == Picked(rules[FirstShadow(rules)..], managed)
      invariant all == picked + left && HostsOf(moved, picked)
      decreases |left|
    {
      var s := FindShadow(rules);
      var idx := FindManaged(rules, s + 1, managed);
      if idx >= |rules| {
        NothingToHoist(rules, managed);
        assert picked + [] == picked;
        break;
      }
      var r := rules[idx];
      rules := HoistOne(rules, managed, idx);
      HostsGrow(moved, picked, r);
      AppendBehind(picked, [r], Picked(rules[FirstShadow(rules)..], managed));
      picked, left := picked + [r], Picked(rules[FirstShadow(rules)..], managed);
      moved := moved + [r.host];
    }
  }

  // ---- the three operations ---------------------------------------------------------------

  function RewriteRule(r: Rule, services: Services): Rule {
    if r.Rule? && r.host in services then r.(service := services[r.host]) else r
  }

  function Rewritten(rules: seq<Rule>, services: Services): (out: seq<Rule>)
    ensures |out| == |rules| && forall i :: 0 <= i < |rules| ==> out[i] == RewriteRule(rules[i], services)
  {
    seq(|rules|, i requires 0 <= i < |rules| => RewriteRule(rules[i], services))
  }

  predicate HasRule(rules: seq<Rule>, h: Bytes) {
    exists i :: 0 <= i < |rules| && Names(rules[i], h)
  }

  const ByName: Order<Bytes> := Order((h: Bytes) => 0, (h: Bytes) => h)

  function Missing(rules: seq<Rule>, services: Services): map<Bytes, Bytes> {
    map h | h in services && !HasRule(rules, h) :: h
  }

  /** The hostnames without a rule, sorted. */
  ghost function MissingHosts(rules: seq<Rule>, services: Services): (hosts: seq<Bytes>)
    ensures IsListing(ByName, hosts, Missing(rules, services))
    ensures forall h :: h in hosts <==> h in services && !HasRule(rules, h)
  {
    var hosts := Listing(ByName, Missing(rules, services));
    assert forall h :: h in Missing(rules, services) <==> h in Missing(rules, services).Values;
    hosts
  }

  ghost predicate AllIn(hosts: seq<Bytes>, services: Services) {
    forall h :: h in hosts ==> h in services
  }

  lemma AllInFront(hosts: seq<Bytes>, services: Services)
    requires AllIn(hosts, services) && hosts != []
    ensures AllIn(hosts[..|hosts| - 1], services) && hosts[|hosts| - 1] in services
  {
    assert hosts[|hosts| - 1] in hosts && forall h :: h in hosts[..|hosts| - 1] ==> h in hosts;
  }

  ghost function InsertAll(rules: seq<Rule>, hosts: seq<Bytes>, services: Services): seq<Rule>
    requires AllIn(hosts, services)
  {
    if hosts == [] then rules
    else
      var n := |hosts| - 1;
      AllInFront(hosts, services);
      Inserted(InsertAll(rules, hosts[..n], services), Rule(hosts[n], services[hosts[n]], ""))
  }

  ghost function Synced(rules: seq<Rule>, services: Services): seq<Rule> {
    var hoisted, hosts := Hoisted(Rewritten(rules, services), services), MissingHosts(rules, services);
    if hosts == [] then hoisted else CatchAll(InsertAll(hoisted, hosts, services))
  }

  /** A hostname's rules are not as they should be. */
  predicate Differs(rules: seq<Rule>, services: Services, h: Bytes)
    requires h in services
  {
    !HasRule(rules, h) || Rerouted(rules, services, h) || (!IsShadow(h) && Behind(rules, h))
  }

  lemma RewrittenKeepsHosts(rules: seq<Rule>, services: Services)
    ensures FirstShadow(Rewritten(rules, services)) == FirstShadow(rules)
    ensures forall h :: HasRule(Rewritten(rules, services), h) <==> HasRule(rules, h)
  {
    var w := Rewritten(rules, services);
    assert forall i :: 0 <= i < |rules| ==> (Shadows(w[i]) <==> Shadows(rules[i]));
    FirstShadowFacts(rules);
    FirstShadowIs(w, FirstShadow(rules));
    forall h ensures HasRule(w, h) <==> HasRule(rules, h) {
      assert forall i :: 0 <= i < |rules| ==> (Names(w[i], h) <==> Names(rules[i], h));
    }
  }

  predicate Behind(rules: seq<Rule>, h: Bytes) {
    exists i :: FirstShadow(rules) < i < |rules| && Names(rules[i], h)
  }

  lemma MovedWereBehind(rules: seq<Rule>, services: Services, r: Rule)
    requires r in Picked(Rewritten(rules, services)[FirstShadow(rules)..], services)
    ensures Managed(r, services) && Behind(rules, r.host)
  {
    var s, w := FirstShadow(rules), Rewritten(rules, services);
    FirstShadowFacts(rules);
    PickedAreManaged(w[s..], services);
    var k :| 0 <= k < |w[s..]| && w[s..][k] == r;
    assert w[s + k] == r && Names(rules[s + k], r.host);
    assert k != 0;
  }

  lemma BehindAreMoved(rules: seq<Rule>, services: Services, h: Bytes) returns (r: Rule)
    requires h in services && !IsShadow(h) && Behind(rules, h)
    ensures r in Picked(Rewritten(rules, services)[FirstShadow(rules)..], services) && Names(r, h)
  {
    var s, w := FirstShadow(rules), Rewritten(rules, services);
    var i :| s < i < |rules| && Names(rules[i], h);
    r := w[i];
    assert w[s..][i - s] == r && r in w[s..];
    PickedAreManaged(w[s..], services);
  }

  lemma MovedIff(rules: seq<Rule>, services: Services, moved: seq<Bytes>)
    requires HostsOf(moved, Picked(Rewritten(rules, services)[FirstShadow(rules)..], services))
    ensures forall h :: h in moved <==> h in services && !IsShadow(h) && Behind(rules, h)
  {
    var p := Picked(Rewritten(rules, services)[FirstShadow(rules)..], services);
    forall h ensures h in moved <==> h in services && !IsShadow(h) && Behind(rules, h) {
      if h in moved {
        var k :| 0 <= k < |moved| && moved[k] == h;
        MovedWereBehind(rules, services, p[k]);
      }
      if h in services && !IsShadow(h) && Behind(rules, h) {
        var r := BehindAreMoved(rules, services, h);
        var k :| 0 <= k < |p| && p[k] == r;
        assert moved[k] == h;
      }
    }
  }

  predicate Rerouted(rules: seq<Rule>, services: Services, h: Bytes)
    requires h in services
  {
    exists i :: 0 <= i < |rules| && Names(rules[i], h) && rules[i].service != services[h]
  }

  /** The pass over the fetched rules. */
  method RewriteRules(rules0: seq<Rule>, services: Services)
    returns (rules: seq<Rule>, changed: seq<Bytes>, missing: map<Bytes, Bytes>)
    ensures rules == Rewritten(rules0, services) && missing == Missing(rules0, services)
    ensures AreRerouted(changed, rules0, services)
  {
    rules, changed := rules0, [];
    missing := map h | h in services :: h;
    var i := 0;
    NothingYet(rules0, services);
    while i < |rules0|
      invariant 0 <= i <= |rules0| == |rules|
      invariant forall k :: 0 <= k < |rules| ==>
        rules[k] == if k < i then RewriteRule(rules0[k], services) else rules0[k]
      invariant missing == Missing(rules0[..i], services) && AreRerouted(changed, rules0[..i], services)
    {
      MissingGrows(rules0, services, i);
      ReroutedGrows(rules0, services, i, changed);
      var r := rules[i];
      if r.Rule? && r.host in services {
        missing := missing - {r.host};
        if r.service != services[r.host] {
          rules := rules[i := r.(service := services[r.host])];
          changed := changed + [r.host];
        }
      }
      i := i + 1;
    }
    assert rules0[..i] == rules0;
  }

  /** The hostnames are those whose rules have another service, in any order. */
  ghost predicate AreRerouted(hosts: seq<Bytes>, rules: seq<Rule>, services: Services) {
    forall h :: h in hosts <==> h in services && Rerouted(rules, services, h)
  }

  lemma NothingYet(rules: seq<Rule>, services: Services)
    ensures Missing(rules[..0], services) == map h | h in services :: h
    ensures AreRerouted([], rules[..0], services)
  {
    forall h ensures !HasRule(rules[..0], h) {
    }
  }

  lemma HasRuleGrows(rules: seq<Rule>, i: nat, h: Bytes)
    requires i < |rules|
    ensures HasRule(rules[..i + 1], h) <==> HasRule(rules[..i], h) || Names(rules[i], h)
  {
    var a, b := rules[..i], rules[..i + 1];
    assert b[i] == rules[i];
    forall k | 0 <= k < i ensures a[k] == b[k] {
    }
    if k :| 0 <= k < |a| && Names(a[k], h) {
      assert Names(b[k], h);
    }
  }

  lemma MissingGrows(rules: seq<Rule>, services: Services, i: nat)
    requires i < |rules|
    ensures Missing(rules[..i + 1], services)
         == if rules[i].Rule? && rules[i].host in services then Missing(rules[..i], services) - {rules[i].host}
             else Missing(rules[..i], services)
  {
    forall h | h in services ensures HasRule(rules[..i + 1], h) <==> HasRule(rules[..i], h) || Names(rules[i], h) {
      HasRuleGrows(rules, i, h);
    }
  }

  lemma ReroutedGrowsAt(rules: seq<Rule>, services: Services, i: nat, h: Bytes)
    requires i < |rules| && h in services
    ensures Rerouted(rules[..i + 1], services, h)
       <==> Rerouted(rules[..i], services, h) || (Names(rules[i], h) && rules[i].service != services[h])
  {
    var a, b := rules[..i], rules[..i + 1];
    assert b[i] == rules[i];
    forall k | 0 <= k < i ensures a[k] == b[k] {
    }
    if k :| 0 <= k < |a| && Names(a[k], h) && a[k].service != services[h] {
      assert Names(b[k], h);
    }
  }

  lemma ReroutedGrows(rules: seq<Rule>, services: Services, i: nat, hosts: seq<Bytes>)
    requires i < |rules| && AreRerouted(hosts, rules[..i], services)
    ensures var r := rules[i];
      var more := if r.Rule? && r.host in services && r.service != services[r.host] then hosts + [r.host] else hosts;
      AreRerouted(more, rules[..i + 1], services)
  {
    var r := rules[i];
    var more := if r.Rule? && r.host in services && r.service != services[r.host] then hosts + [r.host] else hosts;
    forall h ensures h in more <==> h in services && Rerouted(rules[..i + 1], services, h) {
      if h in services {
        ReroutedGrowsAt(rules, services, i, h);
      }
    }
  }

  /** The read-modify-write of SyncIngress on the fetched rules: what it puts back and what
      it reports; with nothing to report it puts nothing back. */
  method SyncIngress(rules0: seq<Rule>, services: Services) returns (rules: seq<Rule>, changed: seq<Bytes>)
    ensures rules == Synced(rules0, services)
    ensures forall h :: h in changed <==> h in services && Differs(rules0, services, h)
    ensures changed == [] ==> rules == rules0
  {
    if services == map[] {
      QuietWhenSettled(rules0, services);
      return rules0, [];
    }
    RewrittenKeepsHosts(rules0, services);
    var missing, moved;
    rules, changed, missing := RewriteRules(rules0, services);
    rules, moved := HoistIngress(rules, services);
    MovedIff(rules0, services, moved);
    changed := changed + moved;
    var hosts := SortedHosts(rules0, services, missing);
    if hosts != [] {
      rules := InsertMissing(rules, hosts, services);
      changed := changed + hosts;
      rules := CatchAll(rules);
    }
    if changed == [] {
      QuietWhenSettled(rules0, services);
    }
  }

  method SortedHosts(ghost rules: seq<Rule>, ghost services: Services, missing: map<Bytes, Bytes>)
    returns (hosts: seq<Bytes>)
    requires missing == Missing(rules, services)
    ensures hosts == MissingHosts(rules, services) && AllIn(hosts, services)
  {
    hosts := ListValues(ByName, missing);
    ListingUnique(ByName, hosts, MissingHosts(rules, services));
  }

  method InsertMissing(rules0: seq<Rule>, hosts: seq<Bytes>, services: Services) returns (rules: seq<Rule>)
    requires AllIn(hosts, services)
    ensures rules == InsertAll(rules0, hosts, services)
  {
    rules := rules0;
    var n := 0;
    while n < |hosts|
      invariant 0 <= n <= |hosts|
      invariant AllIn(hosts[..n], services)
      invariant rules == InsertAll(rules0, hosts[..n], services)
    {
      assert hosts[..n + 1][..n] == hosts[..n] && hosts[n] in hosts;
      rules := InsertIngress(rules, Rule(hosts[n], services[hosts[n]], ""));
      n := n + 1;
    }
    assert hosts[..n] == hosts;
  }

  lemma QuietWhenSettled(rules: seq<Rule>, services: Services)
    requires forall h :: h in services ==> !Differs(rules, services, h)
    ensures Synced(rules, services) == rules
  {
    forall i | 0 <= i < |rules| ensures RewriteRule(rules[i], services) == rules[i] {
      assert rules[i].Rule? ==> Names(rules[i], rules[i].host);
    }
    assert Rewritten(rules, services) == rules;
    forall i | FirstShadow(rules) < i < |rules| ensures !Managed(rules[i], services) {
      assert rules[i].Rule? ==> Names(rules[i], rules[i].host);
    }
    NothingToHoist(rules, services);
    var hosts := MissingHosts(rules, services);
    HeadIn(hosts);
  }

  function FirstNamed(rules: seq<Rule>, h: Bytes): (i: nat)
    ensures i <= |rules|
  {
    if rules == [] || Names(rules[0], h) then 0 else FirstNamed(rules[1..], h) + 1
  }

  lemma {:induction false} FirstNamedFacts(rules: seq<Rule>, h: Bytes)
    ensures forall j :: 0 <= j < FirstNamed(rules, h) ==> !Names(rules[j], h)
    ensures FirstNamed(rules, h) < |rules| ==> Names(rules[FirstNamed(rules, h)], h)
  {
    if rules != [] && !Names(rules[0], h) {
      FirstNamedFacts(rules[1..], h);
      assert forall j :: 0 < j < |rules| ==> rules[j] == rules[1..][j - 1];
    }
  }

  lemma FirstNamedIs(rules: seq<Rule>, h: Bytes, i: nat)
    requires i <= |rules| && (i < |rules| ==> Names(rules[i], h)) && forall j :: 0 <= j < i ==> !Names(rules[j], h)
    ensures FirstNamed(rules, h) == i
  {
    FirstNamedFacts(rules, h);
  }

  function Ensured(rules: seq<Rule>, h: Bytes, service: string): seq<Rule> {
    var i := FirstNamed(rules, h);
    if i < |rules| then
      FirstNamedFacts(rules, h);
      Hoisted(rules[i := rules[i].(service := service)], map[h := service])
    else CatchAll(Inserted(rules, Rule(h, service, "")))
  }

  method EnsureIngress(rules0: seq<Rule>, h: Bytes, service: string) returns (rules: seq<Rule>)
    ensures rules == Ensured(rules0, h, service)
  {
    rules := rules0;
    var i := 0;
    while i < |rules| && !Names(rules[i], h)
      invariant i <= |rules| && forall j :: 0 <= j < i ==> !Names(rules[j], h)
    {
      i := i + 1;
    }
    FirstNamedIs(rules, h, i);
    if i < |rules| {
      rules := rules[i := rules[i].(service := service)];
      var moved;
      rules, moved := HoistIngress(rules, map[h := service]);
    } else {
      rules := InsertIngress(rules, Rule(h, service, ""));
      rules := CatchAll(rules);
    }
  }

  function Without(rules: seq<Rule>, h: Bytes): seq<Rule> {
    if rules == [] then []
    else if Names(rules[0], h) then Without(rules[1..], h)
    else [rules[0]] + Without(rules[1..], h)
  }

  lemma {:induction false} WithoutAppend(a: seq<Rule>, b: seq<Rule>, h: Bytes)
    ensures Without(a + b, h) == Without(a, h) + Without(b, h)
    decreases |a|
  {
    if a == [] {
      assert a + b == b;
    } else {
      assert (a + b)[1..] == a[1..] + b;
      WithoutAppend(a[1..], b, h);
    }
  }

  method RemoveIngress(rules: seq<Rule>, h: Bytes) returns (kept: seq<Rule>)
    ensures kept == Without(rules, h)
  {
    kept := [];
    var i := 0;
    while i < |rules|
      invariant 0 <= i <= |rules| && kept == Without(rules[..i], h)
    {
      assert rules[..i + 1] == rules[..i] + [rules[i]];
      WithoutAppend(rules[..i], [rules[i]], h);
      if !Names(rules[i], h) {
        kept := kept + [rules[i]];
      }
      i := i + 1;
    }
    assert rules[..i] == rules;
  }
}
