/** InstallApps, RemoveApps and ForgetApps step by step on a disk that may refuse an
    operation or stop the machine before it (internal/release/apps.go). */
module Installing {
  import opened Base
  import opened Apps

  /** What becomes of a file-system operation: it happens, it fails without effect, or the
      machine stops before it. Operations past the end of the script happen. */
  datatype Io = Done | Failed | Stopped

  /** What becomes of the k-th operation from now. */
  function Fate(script: seq<Io>, k: nat): Io {
    if k < |script| then script[k] else Done
  }

  function Rest(script: seq<Io>): (rest: seq<Io>)
    ensures forall k: nat :: Fate(rest, k) == Fate(script, k + 1)
  {
    if script == [] then [] else script[1..]
  }

  datatype Action = Installed | Updated | Kept(why: string) | AlreadyCurrent

  function ActionOf(j: Verdict): Action {
    match j
    case Removed => Kept("you removed it")
    case Foreign => Kept("an app of that name was already there")
    case Edited => Kept("you edited it")
    case Current => AlreadyCurrent
    case Install => Installed
    case Update => Updated
  }

  /** The manifest's line for a name once the run has decided on it, and placed it or not. */
  function LineAfter(h: Tree -> Sum, rel: Release, d: Disk, n: Name, placed: bool): Option<Sum> {
    if IsBundle(rel, n) && (placed || JudgeAt(h, rel, d, n) == Current) then Some(h(BundleTree(rel, n)))
    else OwnAt(h, d, n)
  }

  function TreeOf(rel: Release, n: Name): Tree {
    if IsBundle(rel, n) then BundleTree(rel, n) else map[]
  }

  function JobSet(h: Tree -> Sum, rel: Release, d: Disk): set<Name> {
    PlanFor(h, rel, d).Keys
  }

  /** The apps folder while bundles are placed: those in placed stand, those in gap stand
      nowhere, all others as before the run. */
  ghost predicate AppsPlaced(rel: Release, was: map<Name, Tree>, apps: map<Name, Tree>, placed: set<Name>,
      gap: set<Name>) {
    forall n :: AppAt(apps, n) == if n in placed then Some(TreeOf(rel, n)) else if n in gap then None else AppAt(was, n)
  }

  ghost predicate RecordOwned(h: Tree -> Sum, d: Disk, m: Record) {
    forall n :: Line(m, n) == OwnAt(h, d, n)
  }

  ghost predicate RecordAfter(h: Tree -> Sum, rel: Release, d: Disk, m: Record, placed: set<Name>) {
    forall n :: Line(m, n) == LineAfter(h, rel, d, n, n in placed)
  }

  function PlanOnDisk(h: Tree -> Sum, rel: Release, d: Disk): Option<Record> {
    if JobSet(h, rel, d) == {} then d.pending else Some(PlanFor(h, rel, d))
  }

  /** The disk while bundles are placed: the plan names every job, and the manifest says
      what the installer owned at the start or what it has on record by now. */
  ghost predicate MidRun(h: Tree -> Sum, rel: Release, d: Disk, e: Disk, placed: set<Name>, gap: set<Name>) {
    && placed + gap <= JobSet(h, rel, d)
    && AppsPlaced(rel, d.apps, e.apps, placed, gap)
    && e.pending == PlanOnDisk(h, rel, d)
    && (RecordOwned(h, d, Read(e.manifest)) || RecordAfter(h, rel, d, Read(e.manifest), placed))
  }

  lemma {:induction false} JobsAre(h: Tree -> Sum, rel: Release, d: Disk, order: seq<Name>)
    ensures var jobs := Jobs(h, rel, d, order);
      forall n :: n in jobs <==> n in order && JobAt(h, rel, d, n)
    decreases |order|
  {
    if order != [] {
      JobsAre(h, rel, d, order[1..]);
    }
  }

  lemma {:induction false} JobsDistinct(h: Tree -> Sum, rel: Release, d: Disk, order: seq<Name>)
    requires Distinct(order)
    ensures Distinct(Jobs(h, rel, d, order))
    decreases |order|
  {
    if order != [] {
      JobsDistinct(h, rel, d, order[1..]);
      JobsAre(h, rel, d, order[1..]);
    }
  }

  lemma {:induction false} JobsSnoc(h: Tree -> Sum, rel: Release, d: Disk, order: seq<Name>, n: Name)
    ensures Jobs(h, rel, d, order + [n]) == Jobs(h, rel, d, order) + (if JobAt(h, rel, d, n) then [n] else [])
    decreases |order|
  {
    if order == [] {
      assert [] + [n] == [n];
    } else {
      JobsSnoc(h, rel, d, order[1..], n);
      assert (order + [n])[1..] == order[1..] + [n];
    }
  }

  /** Wherever the placing stops, what it leaves is an interrupted run. */
  lemma MidRunInterrupted(h: Tree -> Sum, rel: Release, d: Disk, e: Disk, placed: set<Name>, gap: set<Name>)
    requires MidRun(h, rel, d, e, placed, gap)
    ensures Interrupted(h, rel, d, e)
  {
    forall n ensures Progress(h, rel, n, ViewOf(h, d, n), ViewOf(h, e, n)) {
      MidRunAt(h, rel, d, e, placed, gap, n);
    }
    forall n
      ensures || Line(Read(e.manifest), n) == OwnAt(h, d, n)
              || (IsBundle(rel, n) && Line(Read(e.manifest), n) == Some(h(BundleTree(rel, n))))
    {
      assert Line(Read(e.manifest), n) == OwnAt(h, d, n)
          || Line(Read(e.manifest), n) == LineAfter(h, rel, d, n, n in placed);
    }
  }

  lemma MidRunAt(h: Tree -> Sum, rel: Release, d: Disk, e: Disk, placed: set<Name>, gap: set<Name>, n: Name)
    requires MidRun(h, rel, d, e, placed, gap)
    ensures Progress(h, rel, n, ViewOf(h, d, n), ViewOf(h, e, n))
  {
    assert AppAt(e.apps, n) ==
      if n in placed then Some(TreeOf(rel, n)) else if n in gap then None else AppAt(d.apps, n);
    assert Line(Read(e.manifest), n) == OwnAt(h, d, n)
        || Line(Read(e.manifest), n) == LineAfter(h, rel, d, n, n in placed);
    assert n in JobSet(h, rel, d) <==> JobAt(h, rel, d, n);
    if JobAt(h, rel, d, n) {
      assert n in Read(e.pending) && Read(e.pending)[n] == h(BundleTree(rel, n));
    } else {
      assert n !in placed + gap;
      assert n !in PlanFor(h, rel, d);
    }
  }

  /** Once everything is placed and recorded, only the plan is left to go. */
  lemma AllPlaced(h: Tree -> Sum, rel: Release, d: Disk, e: Disk)
    requires AppsPlaced(rel, d.apps, e.apps, JobSet(h, rel, d), {}) && e.manifest.Some?
    requires RecordAfter(h, rel, d, e.manifest.value, JobSet(h, rel, d))
    ensures e.(pending := None) == Final(h, rel, d)
  {
    var x, m := Final(h, rel, d), e.manifest.value;
    forall n ensures AppAt(e.apps, n) == AppAt(x.apps, n) && Line(m, n) == Line(x.manifest.value, n) {
      EndAt(h, rel, d, n);
      assert n in JobSet(h, rel, d) <==> JobAt(h, rel, d, n);
    }
    SameMaps(e.apps, x.apps, m, x.manifest.value);
  }

  class Fs {
    const sum: Tree -> Sum
    var apps: map<Name, Tree>
    var manifest: Option<Record>
    var pending: Option<Record>
    var script: seq<Io>

    constructor (sum: Tree -> Sum, d: Disk, script: seq<Io>)
      ensures this.sum == sum && Value() == d && this.script == script
    {
      this.sum := sum;
      apps, manifest, pending := d.apps, d.manifest, d.pending;
      this.script := script;
    }

    function Value(): Disk
      reads this
    {
      Disk(apps, manifest, pending)
    }

    predicate Undisturbed()
      reads this
    {
      forall i :: 0 <= i < |script| ==> script[i] == Done
    }

    /** The fate of the next operation. */
    method Next() returns (io: Io)
      modifies `script
      ensures io == Fate(old(script), 0)
      ensures script == Rest(old(script))
      ensures old(Undisturbed()) ==> io == Done && Undisturbed()
    {
      if script == [] {
        return Done;
      }
      io := script[0];
      script := script[1..];
    }

    method WriteManifest(m: Record) returns (io: Io)
      modifies `manifest, `script
      ensures manifest == if io == Done then Some(m) else old(manifest)
      ensures old(Undisturbed()) ==> io == Done && Undisturbed()
    {
      io := Next();
      if io == Done {
        manifest := Some(m);
      }
    }

    method WritePending(m: Record) returns (io: Io)
      modifies `pending, `script
      ensures pending == if io == Done then Some(m) else old(pending)
      ensures old(Undisturbed()) ==> io == Done && Undisturbed()
    {
      io := Next();
      if io == Done {
        pending := Some(m);
      }
    }

    method RemovePending() returns (io: Io)
      modifies `pending, `script
      ensures pending == if io == Done then None else old(pending)
      ensures old(Undisturbed()) ==> io == Done && Undisturbed()
    {
      io := Next();
      if io == Done {
        pending := None;
      }
    }

    /** owned: the manifest and, of an unfinished plan, what stands as planned. */
    method ReadOwned() returns (m: Record, plan: Record)
      ensures m == Owned(sum, Value()) && plan == Read(pending)
    {
      m, plan := Read(manifest), Read(pending);
      var todo := plan.Keys;
      while todo != {}
        invariant todo <= plan.Keys
        invariant forall n :: Line(m, n) == if n in todo then Line(Read(manifest), n) else OwnAt(sum, Value(), n)
        decreases todo
      {
        var n :| n in todo;
        todo := todo - {n};
        if n in apps && sum(apps[n]) == plan[n] {
          m := m[n := plan[n]];
        }
      }
      SameMaps(apps, apps, m, Owned(sum, Value()));
    }

    /** placeTree: a copy is made in staging, what stood there is renamed away, the copy is
        renamed into place; if that fails, what stood there is put back. So it is missing
        afterwards only where the machine stopped between the renames, or neither the second
        rename nor the one back was done. */
    method PlaceTree(n: Name, tree: Tree) returns (io: Io)
      modifies `apps, `script
      ensures io == Done ==> apps == old(apps)[n := tree]
      ensures n in old(apps) ==>
        var s := old(script);
        (io == Done <==> Fate(s, 0) == Fate(s, 1) == Fate(s, 2) == Done)
        && (n !in apps <==> Fate(s, 0) == Fate(s, 1) == Done
                            && (Fate(s, 2) == Stopped || (Fate(s, 2) == Failed && Fate(s, 3) != Done)))
      ensures n !in old(apps) ==> (io == Done <==> Fate(old(script), 0) == Fate(old(script), 1) == Done)
      ensures io != Done ==> apps == old(apps) || apps == old(apps) - {n}
      ensures old(Undisturbed()) ==> io == Done && Undisturbed()
    {
      io := Next(); // the copy in staging
      if io != Done {
        return;
      }
      ghost var before := apps;
      var was := AppAt(apps, n);
      if was.Some? {
        io := Next();
        if io != Done {
          return;
        }
        apps := apps - {n};
      }
      io := RenameIn(n, tree, was);
      assert was.Some? ==> (before - {n})[n := tree] == before[n := tree] && (before - {n})[n := was.value] == before;
    }

    /** The copy is renamed into place, or what was there renamed back. */
    method RenameIn(n: Name, tree: Tree, was: Option<Tree>) returns (io: Io)
      requires n !in apps
      modifies `apps, `script
      ensures io == Done <==> Fate(old(script), 0) == Done
      ensures io == Done ==> apps == old(apps)[n := tree]
      ensures io != Done ==>
        apps == if was.Some? && Fate(old(script), 0) == Failed && Fate(old(script), 1) == Done
                then old(apps)[n := was.value] else old(apps)
      ensures old(Undisturbed()) ==> io == Done && Undisturbed()
    {
      io := Next();
      if io == Done {
        apps := apps[n := tree];
      } else if io == Failed && was.Some? {
        var back := Next();
        if back == Done {
          apps := apps[n := was.value];
        }
        io := if back == Stopped then Stopped else Failed;
      }
    }

    /** What to do with one bundle of the release, by the manifest and plan in hand. */
    method Decide(n: Name, tree: Tree, m: Record, plan: Record) returns (j: Verdict)
      ensures j == Judge(sum, tree, View(AppAt(apps, n), Line(m, n), n in plan))
    {
      if n !in apps {
        return if n in m && n !in plan then Removed else Install;
      }
      if n !in m {
        return Foreign;
      }
      var now := sum(apps[n]);
      if now == sum(tree) {
        return Current;
      }
      return if now != m[n] then Edited else Update;
    }

    /** One entry of the release's folder. */
    method Consider(rel: Release, n: Name, ghost d: Disk, ghost seen: seq<Name>, jobs: seq<Name>,
        changes: map<Name, Action>, m: Record, plan: Record)
      returns (jobs': seq<Name>, changes': map<Name, Action>, m': Record)
      requires apps == d.apps && plan == Read(d.pending) && n !in seen
      requires DecidedOn(sum, rel, d, seen, jobs, changes, m)
      ensures DecidedOn(sum, rel, d, seen + [n], jobs', changes', m')
    {
      jobs', changes', m' := jobs, changes, m;
      JobsSnoc(sum, rel, d, seen, n);
      assert Line(m, n) == OwnAt(sum, d, n);
      if n in rel.entries && rel.entries[n].Folder? && "app.json" in rel.entries[n].tree {
        var tree := rel.entries[n].tree;
        var j := Decide(n, tree, m, plan);
        assert j == JudgeAt(sum, rel, d, n);
        changes' := changes[n := ActionOf(j)];
        if j == Install || j == Update {
          jobs' := jobs + [n];
        } else if j == Current {
          m' := m[n := sum(tree)];
        }
      }
    }

    /** The decisions: which bundles are jobs, what the others are reported as, and the
        manifest with the current ones on record. */
    method DecideAll(rel: Release, m0: Record, plan: Record, ghost d: Disk)
      returns (jobs: seq<Name>, changes: map<Name, Action>, m: Record)
      requires ValidRelease(rel) && apps == d.apps && plan == Read(d.pending) && m0 == Owned(sum, d)
      ensures jobs == Jobs(sum, rel, d, rel.order) && RecordAfter(sum, rel, d, m, {})
      ensures forall n :: Reported(changes, n) == ReportAt(sum, rel, d, n)
    {
      jobs, changes, m := [], map[], m0;
      var i := 0;
      while i < |rel.order|
        invariant 0 <= i <= |rel.order|
        invariant DecidedOn(sum, rel, d, rel.order[..i], jobs, changes, m)
      {
        assert rel.order[..i + 1] == rel.order[..i] + [rel.order[i]];
        jobs, changes, m := Consider(rel, rel.order[i], d, rel.order[..i], jobs, changes, m, plan);
        i := i + 1;
      }
      assert rel.order[..i] == rel.order;
    }

    /** Puts one job in place; on a failure the manifest is saved as a kindness to the next
        run, which goes by the plan. */
    method PlaceJob(rel: Release, n: Name, m: Record, ghost d: Disk, ghost placed: set<Name>) returns (io: Io)
      requires IsBundle(rel, n) && placed + {n} <= JobSet(sum, rel, d) && pending == PlanOnDisk(sum, rel, d)
      requires AppsPlaced(rel, d.apps, apps, placed, {}) && n !in placed
      requires RecordOwned(sum, d, Read(manifest)) && RecordAfter(sum, rel, d, m, placed)
      modifies `apps, `manifest, `script
      ensures old(Undisturbed()) ==> io == Done && Undisturbed()
      ensures io == Done ==> manifest == old(manifest) && apps == old(apps)[n := BundleTree(rel, n)]
      ensures io != Done ==> Interrupted(sum, rel, d, Value())
    {
      ghost var before := apps;
      io := PlaceTree(n, rel.entries[n].tree);
      if io == Failed {
        var _ := WriteManifest(m);
      }
      if io != Done {
        PlacingStopped(sum, rel, d, Value(), before, placed, n, m);
      }
    }

    /** Puts the jobs in place in order. */
    method PlaceAll(rel: Release, jobs: seq<Name>, m0: Record, ghost d: Disk) returns (io: Io, m: Record)
      requires Distinct(jobs) && (forall n :: n in jobs <==> n in JobSet(sum, rel, d))
      requires apps == d.apps && pending == PlanOnDisk(sum, rel, d)
      requires RecordOwned(sum, d, Read(manifest)) && RecordAfter(sum, rel, d, m0, {})
      modifies `apps, `manifest, `script
      ensures old(Undisturbed()) ==> io == Done && Undisturbed()
      ensures io != Done ==> Interrupted(sum, rel, d, Value())
      ensures io == Done ==> manifest == old(manifest)
      ensures io == Done ==>
        AppsPlaced(rel, d.apps, apps, JobSet(sum, rel, d), {}) && RecordAfter(sum, rel, d, m, JobSet(sum, rel, d))
    {
      m := m0;
      ghost var placed: set<Name> := {};
      var i := 0;
      while i < |jobs|
        invariant 0 <= i <= |jobs|
        invariant old(Undisturbed()) ==> Undisturbed()
        invariant forall n :: n in placed <==> n in jobs[..i]
        invariant manifest == old(manifest) && AppsPlaced(rel, d.apps, apps, placed, {})
        invariant RecordAfter(sum, rel, d, m, placed)
      {
        var n := jobs[i];
        assert n in JobSet(sum, rel, d) && n !in placed;
        PlacedOne(sum, rel, d, apps, placed, n, m);
        io := PlaceJob(rel, n, m, d, placed);
        if io != Done {
          return;
        }
        m := m[n := sum(rel.entries[n].tree)];
        placed := placed + {n};
        i := i + 1;
      }
      io := Done;
      assert placed == JobSet(sum, rel, d);
    }

    /** InstallApps. done: the run got to its end. */
    method InstallApps(rel: Release) returns (done: bool, changes: map<Name, Action>)
      requires ValidRelease(rel)
      modifies this
      ensures done ==> Value() == Final(sum, rel, old(Value()))
      ensures done ==> forall n :: Reported(changes, n) == ReportAt(sum, rel, old(Value()), n)
      ensures !done ==> Interrupted(sum, rel, old(Value()), Value())
      ensures old(Undisturbed()) ==> done
    {
      ghost var d := Value();
      changes := map[];
      var m0, plan := ReadOwned();
      var io := Done;
      if plan != map[] {
        io := WriteManifest(m0);
      }
      EarlyStop(sum, rel, d, Value());
      if io != Done {
        return false, changes;
      }
      io := Next(); // staging is cleared; a failure is ignored
      if io == Stopped {
        return false, changes;
      }
      var jobs, report, m := DecideAll(rel, m0, plan, d);
      done := Carry(rel, jobs, m, d);
      changes := report;
    }

    /** From the plan to the end of the run. */
    method Carry(rel: Release, jobs: seq<Name>, m0: Record, ghost d: Disk) returns (done: bool)
      requires ValidRelease(rel) && jobs == Jobs(sum, rel, d, rel.order)
      requires apps == d.apps && pending == d.pending && RecordOwned(sum, d, Read(manifest))
      requires RecordAfter(sum, rel, d, m0, {})
      modifies this
      ensures done ==> Value() == Final(sum, rel, d)
      ensures !done ==> Interrupted(sum, rel, d, Value())
      ensures old(Undisturbed()) ==> done
    {
      JobsAre(sum, rel, d, rel.order);
      JobsDistinct(sum, rel, d, rel.order);
      JobSetIs(sum, rel, d, jobs);
      EarlyStop(sum, rel, d, Value());
      var io := Done;
      if |jobs| > 0 {
        var next := PlanOf(rel, jobs, d);
        io := WritePending(next);
        if io != Done {
          return false;
        }
      }
      var m;
      io, m := PlaceAll(rel, jobs, m0, d);
      if io != Done {
        return false;
      }
      done := Settle(rel, m, d);
    }

    /** With every job placed: the manifest, then the plan goes. */
    method Settle(rel: Release, m: Record, ghost d: Disk) returns (done: bool)
      requires ValidRelease(rel) && MidRun(sum, rel, d, Value(), JobSet(sum, rel, d), {})
      requires RecordAfter(sum, rel, d, m, JobSet(sum, rel, d))
      modifies this
      ensures done ==> Value() == Final(sum, rel, d)
      ensures !done ==> Interrupted(sum, rel, d, Value())
      ensures old(Undisturbed()) ==> done
    {
      MidRunInterrupted(sum, rel, d, Value(), JobSet(sum, rel, d), {});
      var io := WriteManifest(m);
      if io != Done {
        return false;
      }
      assert MidRun(sum, rel, d, Value(), JobSet(sum, rel, d), {});
      MidRunInterrupted(sum, rel, d, Value(), JobSet(sum, rel, d), {});
      AllPlaced(sum, rel, d, Value());
      io := RemovePending();
      done := io == Done;
    }

    /** RemoveApps: what is still exactly as installed goes, what was edited stays. */
    method RemoveApps() returns (done: bool, removed: set<Name>, kept: set<Name>)
      modifies `apps, `script
      ensures apps == old(apps) - removed && removed <= Removable(sum, old(Value()))
      ensures done ==> removed == Removable(sum, old(Value())) && kept == EditedSince(sum, old(Value()))
      ensures old(Undisturbed()) ==> done
    {
      var m, _ := ReadOwned();
      ghost var d := Value();
      removed, kept := {}, {};
      var todo := m.Keys;
      while todo != {}
        invariant todo <= m.Keys && apps == d.apps - removed
        invariant removed == set n | n in m && n !in todo && n in d.apps && sum(d.apps[n]) == m[n]
        invariant kept == set n | n in m && n !in todo && n in d.apps && sum(d.apps[n]) != m[n]
        invariant old(Undisturbed()) ==> Undisturbed()
        decreases todo
      {
        var n :| n in todo;
        if n in apps {
          if sum(apps[n]) != m[n] {
            kept := kept + {n};
          } else {
            var io := Next();
            if io != Done {
              RemovableIs(sum, d, m);
              return false, removed, kept;
            }
            apps := apps - {n};
            removed := removed + {n};
          }
        }
        todo := todo - {n};
      }
      RemovableIs(sum, d, m);
      done := true;
    }

    /** ForgetApps: first the manifest goes, then the plan. */
    method ForgetApps() returns (done: bool)
      modifies `manifest, `pending, `script
      ensures done ==> manifest == None && pending == None
      ensures !done ==> pending == old(pending) && (manifest == old(manifest) || manifest == None)
      ensures old(Undisturbed()) ==> done
    {
      var io := Next();
      if io != Done {
        return false;
      }
      manifest := None;
      io := RemovePending();
      done := io == Done;
    }

    method PlanOf(rel: Release, jobs: seq<Name>, ghost d: Disk) returns (next: Record)
      requires forall n :: n in jobs <==> n in JobSet(sum, rel, d)
      ensures next == PlanFor(sum, rel, d)
    {
      next := map[];
      var i := 0;
      while i < |jobs|
        invariant 0 <= i <= |jobs|
        invariant forall n :: Line(next, n) == if n in jobs[..i] then Line(PlanFor(sum, rel, d), n) else None
      {
        var n := jobs[i];
        assert n in JobSet(sum, rel, d) && jobs[..i + 1] == jobs[..i] + [n];
        next := next[n := sum(rel.entries[n].tree)];
        i := i + 1;
      }
      assert jobs[..i] == jobs;
      SameMaps(apps, apps, next, PlanFor(sum, rel, d));
    }
  }

  /** Saving what the installer owns, before anything else, changes no decision. */
  lemma EarlyStop(h: Tree -> Sum, rel: Release, d: Disk, e: Disk)
    requires e.apps == d.apps && e.pending == d.pending
    requires RecordOwned(h, d, Read(e.manifest)) || e.manifest == d.manifest
    ensures Interrupted(h, rel, d, e)
    ensures Read(d.pending) == map[] ==> RecordOwned(h, d, Read(d.manifest))
  {
    forall n ensures ViewOf(h, e, n) == ViewOf(h, d, n) {
      assert RecordOwned(h, d, Read(e.manifest)) ==> Line(Read(e.manifest), n) == OwnAt(h, d, n);
    }
  }

  lemma JobSetIs(h: Tree -> Sum, rel: Release, d: Disk, jobs: seq<Name>)
    requires ValidRelease(rel) && forall n :: n in jobs <==> n in rel.order && JobAt(h, rel, d, n)
    ensures forall n :: n in jobs <==> n in JobSet(h, rel, d)
    ensures |jobs| == 0 <==> JobSet(h, rel, d) == {}
  {
    if |jobs| > 0 {
      assert jobs[0] in JobSet(h, rel, d);
    }
  }

  /** The bundles that are still exactly what the installer owns. */
  function Removable(h: Tree -> Sum, d: Disk): set<Name> {
    set n | n in d.apps && OwnAt(h, d, n) == Some(h(d.apps[n]))
  }

  /** The bundles the installer owns that are something else by now. */
  function EditedSince(h: Tree -> Sum, d: Disk): set<Name> {
    set n | n in d.apps && OwnAt(h, d, n).Some? && OwnAt(h, d, n) != Some(h(d.apps[n]))
  }

  lemma RemovableIs(h: Tree -> Sum, d: Disk, m: Record)
    requires m == Owned(h, d)
    ensures Removable(h, d) == set n | n in m && n in d.apps && h(d.apps[n]) == m[n]
    ensures EditedSince(h, d) == set n | n in m && n in d.apps && h(d.apps[n]) != m[n]
  {
    assert forall n :: Line(m, n) == OwnAt(h, d, n);
  }

  ghost predicate Distinct(names: seq<Name>) {
    forall i, j :: 0 <= i < j < |names| ==> names[i] != names[j]
  }

  /** A bundle that did not get into place stands as before or nowhere. */
  lemma PlacingStopped(h: Tree -> Sum, rel: Release, d: Disk, e: Disk, was: map<Name, Tree>, placed: set<Name>,
      n: Name, m: Record)
    requires placed + {n} <= JobSet(h, rel, d) && e.pending == PlanOnDisk(h, rel, d) && n !in placed
    requires AppsPlaced(rel, d.apps, was, placed, {}) && (e.apps == was || e.apps == was - {n})
    requires RecordAfter(h, rel, d, m, placed)
    requires RecordOwned(h, d, Read(e.manifest)) || e.manifest == Some(m)
    ensures Interrupted(h, rel, d, e)
  {
    var gap := if e.apps == was then {} else {n};
    forall x
      ensures AppAt(e.apps, x) == if x in placed then Some(TreeOf(rel, x)) else if x in gap then None
          else AppAt(d.apps, x)
    {
      assert AppAt(was, x) == if x in placed then Some(TreeOf(rel, x)) else AppAt(d.apps, x);
    }
    MidRunInterrupted(h, rel, d, e, placed, gap);
  }

  /** One more bundle in place and on record. */
  lemma PlacedOne(h: Tree -> Sum, rel: Release, d: Disk, apps: map<Name, Tree>, placed: set<Name>, n: Name, m: Record)
    requires AppsPlaced(rel, d.apps, apps, placed, {}) && RecordAfter(h, rel, d, m, placed) && IsBundle(rel, n)
    ensures AppsPlaced(rel, d.apps, apps[n := BundleTree(rel, n)], placed + {n}, {})
    ensures RecordAfter(h, rel, d, m[n := h(BundleTree(rel, n))], placed + {n})
  {
  }

  function Reported(changes: map<Name, Action>, n: Name): Option<Action> {
    if n in changes then Some(changes[n]) else None
  }

  /** The report's line for a name; a job's is added once it is in place. */
  function ReportAt(h: Tree -> Sum, rel: Release, d: Disk, n: Name): Option<Action> {
    if IsBundle(rel, n) then Some(ActionOf(JudgeAt(h, rel, d, n))) else None
  }

  /** The report in what stands on the disk: exactly the release's bundles have a line, and it says
      what became of each. */
  lemma ReportIs(h: Tree -> Sum, rel: Release, d: Disk, n: Name)
    ensures ReportAt(h, rel, d, n).Some? <==> IsBundle(rel, n)
    ensures IsBundle(rel, n) <==> n in rel.entries && rel.entries[n].Folder? && "app.json" in rel.entries[n].tree
    ensures IsBundle(rel, n) ==>
      var was, line := AppAt(d.apps, n), OwnAt(h, d, n);
      ReportAt(h, rel, d, n).value ==
        if was.None? then
          if line.Some? && n !in Read(d.pending) then Kept("you removed it") else Installed
        else if line.None? then Kept("an app of that name was already there")
        else if h(was.value) == h(rel.entries[n].tree) then AlreadyCurrent
        else if line == Some(h(was.value)) then Updated
        else Kept("you edited it")
  {
  }

  /** The decisions on the names seen so far. */
  ghost predicate DecidedOn(h: Tree -> Sum, rel: Release, d: Disk, seen: seq<Name>, jobs: seq<Name>,
      changes: map<Name, Action>, m: Record) {
    && jobs == Jobs(h, rel, d, seen)
    && (forall n :: Reported(changes, n) == if n in seen then ReportAt(h, rel, d, n) else None)
    && (forall n :: Line(m, n) == if n in seen then LineAfter(h, rel, d, n, false) else OwnAt(h, d, n))
  }
}
