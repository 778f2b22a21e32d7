/** Installing a release's app bundles (internal/release/apps.go): what a run does to the
    disk, bundle by bundle, and what an interrupted run may leave. */
module Apps {
  import opened Base

  type Name = string
  type Sum = string

  /** A folder's regular files: path -> bytes. */
  type Tree = map<string, Bytes>

  /** AppsManifest: bundle name -> TreeSum of it. */
  type Record = map<Name, Sum>

  /** What stands in a release's folder under one name. */
  datatype SrcEntry = Plain | Folder(tree: Tree)

  /** order is the order ReadDir lists the folder in. */
  datatype Release = Release(order: seq<Name>, entries: map<Name, SrcEntry>)

  /** The apps folder, the manifest file and the pending plan beside it. */
  datatype Disk = Disk(apps: map<Name, Tree>, manifest: Option<Record>, pending: Option<Record>)

  /** A missing record file is an empty one. */
  function Read(f: Option<Record>): Record {
    if f.Some? then f.value else map[]
  }

  predicate IsBundle(rel: Release, n: Name) {
    n in rel.entries && rel.entries[n].Folder? && "app.json" in rel.entries[n].tree
  }

  function BundleTree(rel: Release, n: Name): Tree
    requires IsBundle(rel, n)
  {
    rel.entries[n].tree
  }

  ghost predicate ValidRelease(rel: Release) {
    && (forall n :: n in rel.entries <==> n in rel.order)
    && (forall i, j :: 0 <= i < j < |rel.order| ==> rel.order[i] != rel.order[j])
  }

  function Line(m: Record, n: Name): Option<Sum> {
    if n in m then Some(m[n]) else None
  }

  function AppAt(apps: map<Name, Tree>, n: Name): Option<Tree> {
    if n in apps then Some(apps[n]) else None
  }

  /** The sum the installer owns a name by: the plan's, if the bundle stands exactly as an
      unfinished plan meant to place it, else the manifest's. */
  function OwnAt(h: Tree -> Sum, d: Disk, n: Name): Option<Sum> {
    var plan := Read(d.pending);
    if n in plan && n in d.apps && h(d.apps[n]) == plan[n] then Some(plan[n]) else Line(Read(d.manifest), n)
  }

  function Owned(h: Tree -> Sum, d: Disk): (m: Record)
    ensures forall n :: Line(m, n) == OwnAt(h, d, n)
  {
    map n | n in Read(d.manifest).Keys + Read(d.pending).Keys && OwnAt(h, d, n).Some? :: OwnAt(h, d, n).value
  }

  // ---- one bundle ------------------------------------------------------------------

  /** All that a run's decision about one name depends on: what stands there, the sum the
      installer owns it by, and whether an unfinished plan names it. */
  datatype View = View(app: Option<Tree>, own: Option<Sum>, planned: bool)

  function ViewOf(h: Tree -> Sum, d: Disk, n: Name): View {
    View(AppAt(d.apps, n), OwnAt(h, d, n), n in Read(d.pending))
  }

  datatype Verdict = Removed | Foreign | Edited | Current | Install | Update

  function Judge(h: Tree -> Sum, tree: Tree, v: View): Verdict {
    if v.app.None? then if v.own.Some? && !v.planned then Removed else Install
    else if v.own.None? then Foreign
    else if h(v.app.value) == h(tree) then Current
    else if h(v.app.value) != v.own.value then Edited
    else Update
  }

  predicate IsJob(j: Verdict) {
    j == Install || j == Update
  }

  function JudgeAt(h: Tree -> Sum, rel: Release, d: Disk, n: Name): Verdict
    requires IsBundle(rel, n)
  {
    Judge(h, BundleTree(rel, n), ViewOf(h, d, n))
  }

  predicate JobAt(h: Tree -> Sum, rel: Release, d: Disk, n: Name) {
    IsBundle(rel, n) && IsJob(JudgeAt(h, rel, d, n))
  }

  /** What a finished run leaves of one name: its contents and its line in the manifest. */
  function Finished(h: Tree -> Sum, rel: Release, n: Name, v: View): (Option<Tree>, Option<Sum>) {
    if !IsBundle(rel, n) then (v.app, v.own) else
    var tree := BundleTree(rel, n);
    match Judge(h, tree, v)
    case Install => (Some(tree), Some(h(tree)))
    case Update => (Some(tree), Some(h(tree)))
    case Current => (v.app, Some(h(tree)))
    case _ => (v.app, v.own)
  }

  // ---- the whole disk ---------------------------------------------------------------

  function Names(h: Tree -> Sum, rel: Release, d: Disk): set<Name> {
    d.apps.Keys + Owned(h, d).Keys + rel.entries.Keys
  }

  /** The disk after a run that finishes. */
  function Final(h: Tree -> Sum, rel: Release, d: Disk): Disk {
    Disk(map n | n in Names(h, rel, d) && Finished(h, rel, n, ViewOf(h, d, n)).0.Some?
           :: Finished(h, rel, n, ViewOf(h, d, n)).0.value,
         Some(map n | n in Names(h, rel, d) && Finished(h, rel, n, ViewOf(h, d, n)).1.Some?
           :: Finished(h, rel, n, ViewOf(h, d, n)).1.value),
         None)
  }

  /** The bundles a run puts in place, in order. */
  function Jobs(h: Tree -> Sum, rel: Release, d: Disk, order: seq<Name>): seq<Name> {
    if order == [] then []
    else if JobAt(h, rel, d, order[0]) then [order[0]] + Jobs(h, rel, d, order[1..])
    else Jobs(h, rel, d, order[1..])
  }

  /** The plan a run writes before it places anything. */
  function PlanFor(h: Tree -> Sum, rel: Release, d: Disk): Record {
    map n | n in rel.entries && JobAt(h, rel, d, n) :: h(BundleTree(rel, n))
  }

  /** A finished run, bundle by bundle in what stands on the disk: what is not the release's stays
      as it is; a missing one is put in place, unless the owner removed it; one that stands there
      without a record stays; one that is the release's already is put on record, whatever the
      record said; one that stands as recorded is updated; any other was edited and stays. */
  lemma FinalIs(h: Tree -> Sum, rel: Release, d: Disk, n: Name)
    ensures var was, line, planned := AppAt(d.apps, n), OwnAt(h, d, n), n in Read(d.pending);
      var x := Final(h, rel, d);
      var now, kept := AppAt(x.apps, n), Line(x.manifest.value, n);
      if n !in rel.entries || rel.entries[n].Plain? || "app.json" !in rel.entries[n].tree then
        now == was && kept == line
      else
        var tree := rel.entries[n].tree;
        if was.None? then
          if line.Some? && !planned then now.None? && kept == line else now == Some(tree) && kept == Some(h(tree))
        else if line.None? then now == was && kept.None?
        else if h(was.value) == h(tree) then now == was && kept == Some(h(tree))
        else if Some(h(was.value)) == line then now == Some(tree) && kept == Some(h(tree))
        else now == was && kept == line
  {
    EndAt(h, rel, d, n);
  }

  /** The sum a bundle is owned by: the plan's where it stands exactly as planned, so that a run
      that was stopped behind it is finished, else the manifest's. */
  lemma OwnedIs(h: Tree -> Sum, d: Disk, n: Name)
    ensures var plan, m := Read(d.pending), Read(d.manifest);
      && (n in plan && n in d.apps && h(d.apps[n]) == plan[n] ==> OwnAt(h, d, n) == Some(h(d.apps[n])))
      && (n !in plan || n !in d.apps || h(d.apps[n]) != plan[n] ==>
          if n in m then OwnAt(h, d, n) == Some(m[n]) else OwnAt(h, d, n).None?)
  {
  }

  // ---- runs that stop ------------------------------------------------------------------

  /** How far an unfinished run got with one name: nothing changed; or it is a job and
      stands as before, or nowhere (between the two renames), or as the release has it, and
      the plan names it; or it is not, and at most its line was brought up to date and an
      older plan that named it is gone. */
  ghost predicate Progress(h: Tree -> Sum, rel: Release, n: Name, v: View, w: View) {
    || w == v
    || (IsBundle(rel, n) && IsJob(Judge(h, BundleTree(rel, n), v)) && w.planned
        && (|| (w.app == Some(BundleTree(rel, n)) && w.own == Some(h(BundleTree(rel, n))))
            || ((w.app.None? || w.app == v.app) && w.own == v.own)))
    || (!(IsBundle(rel, n) && IsJob(Judge(h, BundleTree(rel, n), v)))
        && w.app == v.app && (w.planned ==> v.planned)
        && (w.own == v.own || w.own == Finished(h, rel, n, v).1))
  }

  ghost predicate Interrupted(h: Tree -> Sum, rel: Release, d: Disk, e: Disk) {
    && (forall n :: Progress(h, rel, n, ViewOf(h, d, n), ViewOf(h, e, n)))
    && RecordsFrom(h, rel, d, e)
  }

  /** The record files an unfinished run leaves: the plan is the old one or its own, and
      every line of the manifest was there, was planned and stands, or is the release's. */
  ghost predicate RecordsFrom(h: Tree -> Sum, rel: Release, d: Disk, e: Disk) {
    && (e.pending == d.pending || e.pending == Some(PlanFor(h, rel, d)))
    && (forall n :: || Line(Read(e.manifest), n) == Line(Read(d.manifest), n)
                    || Line(Read(e.manifest), n) == OwnAt(h, d, n)
                    || (IsBundle(rel, n) && Line(Read(e.manifest), n) == Some(h(BundleTree(rel, n)))))
  }

  /** However far it got, the next run decides to the same end. */
  lemma ProgressKeepsEnd(h: Tree -> Sum, rel: Release, n: Name, v: View, w: View)
    requires Progress(h, rel, n, v, w)
    ensures Finished(h, rel, n, w) == Finished(h, rel, n, v)
  {
  }

  /** One more full run after an interrupted one leaves the same bundles and manifest as a
      single uninterrupted run, with no plan left. */
  lemma InterruptedKeepsEnd(h: Tree -> Sum, rel: Release, d: Disk, e: Disk)
    requires Interrupted(h, rel, d, e)
    ensures Final(h, rel, e) == Final(h, rel, d)
  {
    forall n
      ensures Finished(h, rel, n, ViewOf(h, e, n)) == Finished(h, rel, n, ViewOf(h, d, n))
    {
      ProgressKeepsEnd(h, rel, n, ViewOf(h, d, n), ViewOf(h, e, n));
    }
    SameEnd(h, rel, d, e);
  }

  /** The final disk is its per-name ends. */
  lemma SameEnd(h: Tree -> Sum, rel: Release, d: Disk, e: Disk)
    requires forall n :: Finished(h, rel, n, ViewOf(h, e, n)) == Finished(h, rel, n, ViewOf(h, d, n))
    ensures Final(h, rel, e) == Final(h, rel, d)
  {
    var x, y := Final(h, rel, e), Final(h, rel, d);
    forall n ensures AppAt(x.apps, n) == AppAt(y.apps, n) && Line(x.manifest.value, n) == Line(y.manifest.value, n) {
      EndAt(h, rel, d, n);
      EndAt(h, rel, e, n);
    }
    SameMaps(x.apps, y.apps, x.manifest.value, y.manifest.value);
  }

  lemma SameMaps(a: map<Name, Tree>, b: map<Name, Tree>, m: Record, k: Record)
    requires forall n :: AppAt(a, n) == AppAt(b, n) && Line(m, n) == Line(k, n)
    ensures a == b && m == k
  {
    forall n ensures (n in a <==> n in b) && (n in a ==> a[n] == b[n]) {
      assert AppAt(a, n) == AppAt(b, n);
    }
    forall n ensures (n in m <==> n in k) && (n in m ==> m[n] == k[n]) {
      assert Line(m, n) == Line(k, n);
    }
  }

  lemma EndAt(h: Tree -> Sum, rel: Release, d: Disk, n: Name)
    ensures var x, f := Final(h, rel, d), Finished(h, rel, n, ViewOf(h, d, n));
      f.0 == AppAt(x.apps, n) && f.1 == Line(x.manifest.value, n)
  {
    assert Line(Owned(h, d), n) == OwnAt(h, d, n);
  }

  /** Disk i is what a stopped run left of the disk before it. */
  ghost predicate LeftBy(h: Tree -> Sum, rel: Release, disks: seq<Disk>, i: nat)
    requires 0 < i < |disks|
  {
    Interrupted(h, rel, disks[i - 1], disks[i])
  }

  /** Crash recovery: however many runs of one release are stopped at whatever step, one
      full run then leaves what a single uninterrupted run from the start would have. */
  lemma CrashRecovery(h: Tree -> Sum, rel: Release, disks: seq<Disk>)
    requires |disks| > 0
    requires forall i :: 0 < i < |disks| ==> LeftBy(h, rel, disks, i)
    ensures Final(h, rel, disks[|disks| - 1]) == Final(h, rel, disks[0])
  {
    EndsAgree(h, rel, disks);
  }

  lemma EndsAgree(h: Tree -> Sum, rel: Release, disks: seq<Disk>)
    requires |disks| > 0
    requires forall i :: 0 < i < |disks| ==> LeftBy(h, rel, disks, i)
    ensures Ends(h, rel, disks)[|disks| - 1] == Ends(h, rel, disks)[0]
  {
    forall i | 0 < i < |disks| ensures Ends(h, rel, disks)[i] == Ends(h, rel, disks)[i - 1] {
      NextEnd(h, rel, disks, i);
    }
    SameAsFirst(Ends(h, rel, disks), |disks| - 1);
  }

  function Ends(h: Tree -> Sum, rel: Release, disks: seq<Disk>): (ends: seq<Disk>)
    ensures |ends| == |disks| && forall i :: 0 <= i < |disks| ==> ends[i] == Final(h, rel, disks[i])
  {
    seq(|disks|, i requires 0 <= i < |disks| => Final(h, rel, disks[i]))
  }

  lemma NextEnd(h: Tree -> Sum, rel: Release, disks: seq<Disk>, i: nat)
    requires 0 < i < |disks| && LeftBy(h, rel, disks, i)
    ensures Ends(h, rel, disks)[i] == Ends(h, rel, disks)[i - 1]
  {
    InterruptedKeepsEnd(h, rel, disks[i - 1], disks[i]);
  }

  lemma {:induction false} SameAsFirst(ends: seq<Disk>, k: nat)
    requires k < |ends| && forall i :: 0 < i < |ends| ==> ends[i] == ends[i - 1]
    ensures ends[k] == ends[0]
  {
    if k > 0 {
      SameAsFirst(ends, k - 1);
    }
  }

  /** Running a finished release again changes nothing. */
  lemma FinalIsStable(h: Tree -> Sum, rel: Release, d: Disk)
    ensures Final(h, rel, Final(h, rel, d)) == Final(h, rel, d)
  {
    var e := Final(h, rel, d);
    forall n
      ensures Finished(h, rel, n, ViewOf(h, e, n)) == Finished(h, rel, n, ViewOf(h, d, n))
    {
      EndAt(h, rel, d, n);
    }
    SameEnd(h, rel, d, e);
  }
}
