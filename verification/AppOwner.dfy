/** Whose bundle is whose, over any history of installs of different releases, uninstalls,
    stopped runs and the owner's own edits (internal/release/apps.go). */
module AppOwner {
  import opened Base
  import opened Apps
  import opened Installing

  datatype Event = RunInstall(rel: Release) | Uninstall | Forget | Edit(name: Name, app: Option<Tree>)

  /** The sums, by name, of every bundle some release has brought so far. */
  type Shipped = set<(Name, Sum)>

  function SumsShipped(h: Tree -> Sum, rel: Release): Shipped {
    set n | n in rel.entries && IsBundle(rel, n) :: (n, h(BundleTree(rel, n)))
  }

  function ShippedAfter(h: Tree -> Sum, s: Shipped, ev: Event): Shipped {
    if ev.RunInstall? then s + SumsShipped(h, ev.rel) else s
  }

  function WithApp(apps: map<Name, Tree>, n: Name, app: Option<Tree>): map<Name, Tree> {
    if app.Some? then apps[n := app.value] else apps - {n}
  }

  /** What an event may make of the disk, finished or stopped halfway. */
  ghost predicate Leads(h: Tree -> Sum, d: Disk, ev: Event, e: Disk) {
    match ev
    case RunInstall(rel) => e == Final(h, rel, d) || Interrupted(h, rel, d, e)
    case Uninstall => e == d.(apps := e.apps) && exists gone :: gone <= Removable(h, d) && e.apps == d.apps - gone
    case Forget => e == d || e == d.(manifest := None) || e == d.(manifest := None, pending := None)
    case Edit(n, app) => e == d.(apps := WithApp(d.apps, n, app))
  }

  predicate Known(s: Shipped, n: Name, line: Option<Sum>) {
    line.Some? ==> (n, line.value) in s
  }

  /** Every sum on record is that of some release's bundle of that name. */
  ghost predicate RecordsShipped(d: Disk, s: Shipped) {
    forall n :: Known(s, n, Line(Read(d.manifest), n)) && Known(s, n, Line(Read(d.pending), n))
  }

  lemma EventKeepsRecords(h: Tree -> Sum, d: Disk, s: Shipped, ev: Event, e: Disk)
    requires RecordsShipped(d, s) && Leads(h, d, ev, e)
    ensures RecordsShipped(e, ShippedAfter(h, s, ev))
  {
    var s' := ShippedAfter(h, s, ev);
    if ev.RunInstall? {
      forall n ensures Known(s', n, Line(Read(e.manifest), n)) && Known(s', n, Line(Read(e.pending), n)) {
        InstallKeepsRecords(h, d, s, ev.rel, e, n);
      }
    }
  }

  lemma InstallKeepsRecords(h: Tree -> Sum, d: Disk, s: Shipped, rel: Release, e: Disk, n: Name)
    requires RecordsShipped(d, s) && Leads(h, d, RunInstall(rel), e)
    ensures var s' := s + SumsShipped(h, rel);
      Known(s', n, Line(Read(e.manifest), n)) && Known(s', n, Line(Read(e.pending), n))
  {
    var s' := s + SumsShipped(h, rel);
    assert Known(s, n, Line(Read(d.manifest), n)) && Known(s, n, Line(Read(d.pending), n));
    assert IsBundle(rel, n) ==> (n, h(BundleTree(rel, n))) in SumsShipped(h, rel);
    if e == Final(h, rel, d) {
      EndAt(h, rel, d, n);
    } else {
      StopKeepsRecord(h, d, s', rel, e, n);
    }
  }

  lemma StopKeepsRecord(h: Tree -> Sum, d: Disk, s: Shipped, rel: Release, e: Disk, n: Name)
    requires Interrupted(h, rel, d, e)
    requires Known(s, n, Line(Read(d.manifest), n)) && Known(s, n, Line(Read(d.pending), n))
    requires IsBundle(rel, n) ==> (n, h(BundleTree(rel, n))) in s
    ensures Known(s, n, Line(Read(e.manifest), n)) && Known(s, n, Line(Read(e.pending), n))
  {
  }

  /** An install puts a bundle in place, or takes one away halfway, only where nothing
      stands or what stands is exactly a bundle some release brought. */
  lemma InstallReplacesOnlyShipped(h: Tree -> Sum, d: Disk, s: Shipped, rel: Release, e: Disk, n: Name)
    requires RecordsShipped(d, s) && Leads(h, d, RunInstall(rel), e)
    requires AppAt(e.apps, n) != AppAt(d.apps, n)
    ensures n in d.apps ==> OwnAt(h, d, n) == Some(h(d.apps[n])) && (n, h(d.apps[n])) in s
    ensures n in e.apps ==> IsBundle(rel, n) && e.apps[n] == BundleTree(rel, n)
  {
    assert Known(s, n, Line(Read(d.manifest), n)) && Known(s, n, Line(Read(d.pending), n));
    if e == Final(h, rel, d) {
      FinishReplacesOwned(h, d, rel, n);
    } else {
      StopReplacesOwned(h, d, rel, e, n);
    }
  }

  lemma FinishReplacesOwned(h: Tree -> Sum, d: Disk, rel: Release, n: Name)
    requires AppAt(Final(h, rel, d).apps, n) != AppAt(d.apps, n)
    ensures n in d.apps ==> OwnAt(h, d, n) == Some(h(d.apps[n]))
    ensures n in Final(h, rel, d).apps ==> IsBundle(rel, n) && Final(h, rel, d).apps[n] == BundleTree(rel, n)
  {
    EndAt(h, rel, d, n);
  }

  lemma StopReplacesOwned(h: Tree -> Sum, d: Disk, rel: Release, e: Disk, n: Name)
    requires Interrupted(h, rel, d, e) && AppAt(e.apps, n) != AppAt(d.apps, n)
    ensures n in d.apps ==> OwnAt(h, d, n) == Some(h(d.apps[n]))
    ensures n in e.apps ==> IsBundle(rel, n) && e.apps[n] == BundleTree(rel, n)
  {
    assert Progress(h, rel, n, ViewOf(h, d, n), ViewOf(h, e, n));
  }

  /** A bundle on record that its owner removed: it is not there, and no plan names it. */
  predicate RemovedByOwner(d: Disk, n: Name) {
    n !in d.apps && n in Read(d.manifest) && n !in Read(d.pending)
  }

  /** The installer does not forget, and the owner leaves the place of n alone. */
  predicate LeavesRemoved(ev: Event, n: Name) {
    !ev.Forget? && !(ev.Edit? && ev.name == n)
  }

  lemma EventKeepsRemoved(h: Tree -> Sum, d: Disk, ev: Event, e: Disk, n: Name)
    requires Leads(h, d, ev, e) && RemovedByOwner(d, n) && LeavesRemoved(ev, n)
    ensures RemovedByOwner(e, n)
  {
    if ev.RunInstall? {
      if e == Final(h, ev.rel, d) {
        EndAt(h, ev.rel, d, n);
      } else {
        StopKeepsRemoved(h, d, ev.rel, e, n);
      }
    }
  }

  lemma StopKeepsRemoved(h: Tree -> Sum, d: Disk, rel: Release, e: Disk, n: Name)
    requires Interrupted(h, rel, d, e) && RemovedByOwner(d, n)
    ensures RemovedByOwner(e, n)
  {
    assert Progress(h, rel, n, ViewOf(h, d, n), ViewOf(h, e, n));
    assert AppAt(e.apps, n).None? && Line(Read(e.manifest), n) == OwnAt(h, e, n);
  }

  /** In general a finished run puts a missing bundle of the release in place exactly when
      the manifest does not have it or an unfinished plan names it. */
  lemma MissingPlacedIff(h: Tree -> Sum, d: Disk, rel: Release, n: Name)
    requires IsBundle(rel, n) && n !in d.apps
    ensures n in Final(h, rel, d).apps <==> n !in Read(d.manifest) || n in Read(d.pending)
  {
    EndAt(h, rel, d, n);
    assert AppAt(Final(h, rel, d).apps, n) == Finished(h, rel, n, ViewOf(h, d, n)).0;
  }

  // ---- histories ---------------------------------------------------------------------

  /** disks[i] is the disk before events[i]. */
  ghost predicate History(h: Tree -> Sum, disks: seq<Disk>, events: seq<Event>) {
    && |disks| == |events| + 1
    && forall i :: 0 <= i < |events| ==> Leads(h, disks[i], events[i], disks[i + 1])
  }

  function ShippedBy(h: Tree -> Sum, s: Shipped, events: seq<Event>): Shipped {
    if events == [] then s else ShippedAfter(h, ShippedBy(h, s, events[..|events| - 1]), events[|events| - 1])
  }

  /** Over any history every sum on record is one some release brought. */
  lemma {:induction false} HistoryKeepsRecords(h: Tree -> Sum, s: Shipped, disks: seq<Disk>, events: seq<Event>)
    requires History(h, disks, events) && RecordsShipped(disks[0], s)
    ensures RecordsShipped(disks[|events|], ShippedBy(h, s, events))
    decreases |events|
  {
    if events != [] {
      var k := |events| - 1;
      HistoryKeepsRecords(h, s, disks[..k + 1], events[..k]);
      EventKeepsRecords(h, disks[k], ShippedBy(h, s, events[..k]), events[k], disks[k + 1]);
    }
  }

  /** A bundle on record that its owner removed, with no plan that names it, is never brought
      back: not by any number of installs of any releases, finished or stopped anywhere, nor
      by uninstalls and edits of others in between, until the installer forgets it or the
      owner puts it there. */
  lemma {:induction false} RemovedStaysRemoved(h: Tree -> Sum, disks: seq<Disk>, events: seq<Event>, n: Name)
    requires History(h, disks, events) && RemovedByOwner(disks[0], n)
    requires forall ev :: ev in events ==> LeavesRemoved(ev, n)
    ensures RemovedByOwner(disks[|events|], n)
    decreases |events|
  {
    var k, last := |events| - 1, disks[|events|];
    if events != [] {
      assert events[k] in events && disks[k + 1] == last;
      RemovedStaysRemoved(h, disks[..k + 1], events[..k], n);
      EventKeepsRemoved(h, disks[k], events[k], last, n);
    }
  }

  /** A bundle whose contents no release ever brought under that name is its owner's: no
      install, update, uninstall or stopped run touches it. */
  lemma {:induction false} OwnersBundleStays(h: Tree -> Sum, s: Shipped, disks: seq<Disk>, events: seq<Event>,
      n: Name, t: Tree)
    requires History(h, disks, events) && RecordsShipped(disks[0], s)
    requires AppAt(disks[0].apps, n) == Some(t) && (n, h(t)) !in ShippedBy(h, s, events)
    requires forall i :: 0 <= i < |events| ==> !(events[i].Edit? && events[i].name == n)
    ensures AppAt(disks[|events|].apps, n) == Some(t)
    decreases |events|
  {
    if events != [] {
      var k := |events| - 1;
      var before := ShippedBy(h, s, events[..k]);
      assert before <= ShippedBy(h, s, events);
      OwnersBundleStays(h, s, disks[..k + 1], events[..k], n, t);
      HistoryKeepsRecords(h, s, disks[..k + 1], events[..k]);
      var d, e := disks[k], disks[k + 1];
      assert Leads(h, d, events[k], e);
      if events[k].RunInstall? && AppAt(e.apps, n) != AppAt(d.apps, n) {
        InstallReplacesOnlyShipped(h, d, before, events[k].rel, e, n);
      } else if events[k].Uninstall? {
        assert Known(before, n, Line(Read(d.manifest), n)) && Known(before, n, Line(Read(d.pending), n));
      }
    }
  }
}
