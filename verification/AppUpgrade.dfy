/** A run of one release that stops, finished by a run of a later release
    (internal/release/apps.go). */
module AppUpgrade {
  import opened Base
  import opened Apps

  /** TreeSum tells different bundles apart. */
  ghost predicate Injective(h: Tree -> Sum) {
    forall s, t :: h(s) == h(t) ==> s == t
  }

  /** How far any number of stopped runs got with a bundle they were to place: it is in place
      and on record; or it stands as before or nowhere, and nothing or the plan says so. */
  ghost predicate JobReached(h: Tree -> Sum, tree: Tree, v: View, w: View) {
    || (w.app == Some(tree) && w.own == Some(h(tree)))
    || w == v
    || (w.planned && (w.app.None? || w.app == v.app) && w.own == v.own)
  }

  lemma JobEnds(h: Tree -> Sum, rel: Release, later: Release, n: Name, v: View, w: View)
    requires Injective(h) && IsBundle(rel, n) && JobReached(h, BundleTree(rel, n), v, w) && IsBundle(later, n)
    requires IsJob(Judge(h, BundleTree(rel, n), v))
    ensures Finished(h, later, n, w) == Finished(h, later, n, v)
        == (Some(BundleTree(later, n)), Some(h(BundleTree(later, n))))
  {
  }

  /** A bundle of both releases that the first was to place, however many of its runs stopped
      wherever: a full run of the later release leaves it with the later contents and line, as
      it would have with no stopped run before. */
  lemma LaterReleaseFinishes(h: Tree -> Sum, rel: Release, later: Release, disks: seq<Disk>, n: Name)
    requires Injective(h) && |disks| > 0 && JobAt(h, rel, disks[0], n) && IsBundle(later, n)
    requires forall i :: 0 < i < |disks| ==> Interrupted(h, rel, disks[i - 1], disks[i])
    ensures var x, alone := Final(h, later, disks[|disks| - 1]), Final(h, later, disks[0]);
      && AppAt(x.apps, n) == AppAt(alone.apps, n) == Some(BundleTree(later, n))
      && Line(x.manifest.value, n) == Line(alone.manifest.value, n) == Some(h(BundleTree(later, n)))
  {
    Reaches(h, rel, disks, n, |disks| - 1);
    EndAt(h, later, disks[|disks| - 1], n);
    EndAt(h, later, disks[0], n);
    JobEnds(h, rel, later, n, ViewOf(h, disks[0], n), ViewOf(h, disks[|disks| - 1], n));
  }

  lemma {:induction false} Reaches(h: Tree -> Sum, rel: Release, disks: seq<Disk>, n: Name, k: nat)
    requires k < |disks| && JobAt(h, rel, disks[0], n)
    requires forall i :: 0 < i < |disks| ==> Interrupted(h, rel, disks[i - 1], disks[i])
    ensures JobReached(h, BundleTree(rel, n), ViewOf(h, disks[0], n), ViewOf(h, disks[k], n))
    decreases k
  {
    if k > 0 {
      Reaches(h, rel, disks, n, k - 1);
      assert Interrupted(h, rel, disks[k - 1], disks[k]);
      ProgressReaches(h, rel, n, ViewOf(h, disks[0], n), ViewOf(h, disks[k - 1], n), ViewOf(h, disks[k], n));
    }
  }

  lemma ProgressReaches(h: Tree -> Sum, rel: Release, n: Name, u: View, v: View, w: View)
    requires IsBundle(rel, n) && IsJob(Judge(h, BundleTree(rel, n), u))
    requires JobReached(h, BundleTree(rel, n), u, v) && Progress(h, rel, n, v, w)
    ensures JobReached(h, BundleTree(rel, n), u, w)
  {
  }

  /** After a finished run the view of a name is what the run left, with no plan. */
  lemma ViewAfter(h: Tree -> Sum, rel: Release, d: Disk, n: Name)
    ensures var f := Finished(h, rel, n, ViewOf(h, d, n));
      ViewOf(h, Final(h, rel, d), n) == View(f.0, f.1, false)
  {
    EndAt(h, rel, d, n);
  }

  lemma ComesBack(h: Tree -> Sum, rel: Release, later: Release, n: Name, v: View)
    requires IsBundle(later, n) && v.app.None? && v.planned
    ensures var f := Finished(h, rel, n, v);
      Finished(h, later, n, View(f.0, f.1, false)).0.Some? <==> IsBundle(rel, n) || v.own.None?
  {
  }

  /** A bundle that a plan names and that is missing, as a stop between the two renames leaves
      it: after a finished run of one release, a later one that has it puts it in place exactly
      when the release between had it too or the manifest does not list it. Otherwise the plan
      is gone, the line stays, and the later run takes the bundle for one its owner removed. */
  lemma PlannedComesBackIff(h: Tree -> Sum, rel: Release, later: Release, d: Disk, n: Name)
    requires IsBundle(later, n) && n !in d.apps && n in Read(d.pending)
    ensures n in Final(h, later, Final(h, rel, d)).apps <==> IsBundle(rel, n) || n !in Read(d.manifest)
  {
    ViewAfter(h, rel, d, n);
    ViewAfter(h, later, Final(h, rel, d), n);
    ComesBack(h, rel, later, n, ViewOf(h, d, n));
  }

  /** A release with one bundle. */
  function Only(n: Name, t: Tree): Release {
    Release([n], map[n := Folder(t)])
  }

  const Nothing := Release([], map[])

  /** Such a bundle: installed at was, its update to next stopped between the renames, then a
      release without it, then one that has it again. It does not come back, where the last
      release alone would have updated it. */
  lemma LostBetweenReleases(h: Tree -> Sum, n: Name, was: Tree, next: Tree) returns (d: Disk, e: Disk)
    requires "app.json" in was && "app.json" in next && h(was) != h(next)
    ensures d == Disk(map[n := was], Some(map[n := h(was)]), None)
    ensures Interrupted(h, Only(n, next), d, e)
    ensures n !in Final(h, Only(n, next), Final(h, Nothing, e)).apps
    ensures n in Final(h, Only(n, next), d).apps && Final(h, Only(n, next), d).apps[n] == next
  {
    d := Disk(map[n := was], Some(map[n := h(was)]), None);
    e := Disk(map[], d.manifest, Some(map[n := h(next)]));
    StoppedBetween(h, n, was, next, d, e);
    PlannedComesBackIff(h, Nothing, Only(n, next), e, n);
    ViewAfter(h, Only(n, next), d, n);
  }

  lemma StoppedBetween(h: Tree -> Sum, n: Name, was: Tree, next: Tree, d: Disk, e: Disk)
    requires "app.json" in next && h(was) != h(next)
    requires d == Disk(map[n := was], Some(map[n := h(was)]), None)
        && e == Disk(map[], d.manifest, Some(map[n := h(next)]))
    ensures Interrupted(h, Only(n, next), d, e)
  {
    assert e.pending.value == PlanFor(h, Only(n, next), d);
  }
}
