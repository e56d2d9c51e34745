/** Installing release directories behind symbolic links: the steps of the agent on a small file system,
    with every state it passes through. Several active paths with one parent share one releases directory. */
module ReleaseInstall {
  import opened Prelude

  /** The contents of a directory tree, told apart by a token. */
  type Data = nat

  /** What stands at an active path or at its previous path. A link points into the releases directory; all
      these paths have the same parent, so a link means the same after a rename. */
  datatype Node = Missing | Link(release: string) | Tree(data: Data)

  /** An active path and the previous path beside it. */
  datatype Slot = Slot(active: Node, previous: Node)

  /** The active paths by name, the releases directory and the directory that is to be installed. */
  datatype Disk = Disk(slots: map<string, Slot>, releases: map<string, Data>, incoming: Option<Data>)

  function At(d: Disk, path: string): Slot {
    if path in d.slots then d.slots[path] else Slot(Missing, Missing)
  }

  function With(d: Disk, path: string, slot: Slot): Disk {
    d.(slots := d.slots[path := slot])
  }

  function Resolve(d: Disk, n: Node): Option<Data> {
    match n
    case Missing => None
    case Link(release) => if release in d.releases then Some(d.releases[release]) else None
    case Tree(data) => Some(data)
  }

  /** The data can be reached through the active path or its previous path. */
  predicate Reachable(d: Disk, path: string, data: Data) {
    Resolve(d, At(d, path).active) == Some(data) || Resolve(d, At(d, path).previous) == Some(data)
  }

  /** A file system with the trail of states it has been in. */
  class FileSystem {
    var disk: Disk
    ghost var trail: seq<Disk>

    constructor (disk: Disk)
      ensures this.disk == disk && trail == [disk]
    {
      this.disk := disk;
      trail := [disk];
    }

    method Put(next: Disk)
      modifies this
      ensures disk == next && trail == old(trail) + [next]
    {
      disk := next;
      trail := trail + [next];
    }

    /** movePathIfExists: a missing path is fine, and so is a rename that fails. */
    method MoveActiveToPrevious(path: string, renames: bool)
      modifies this
      ensures disk == Moved(old(disk), path, renames)
      ensures trail == old(trail) + [disk]
    {
      var slot := At(disk, path);
      if renames && !slot.active.Missing? {
        Put(With(disk, path, Slot(Missing, slot.active)));
      } else {
        Put(disk);
      }
    }

    /** installReleaseDirectory. The rename of the incoming directory needs it to be there; a link is not
        made over a path that still exists. */
    method InstallReleaseDirectory(path: string, releaseId: string, renames: bool) returns (installed: bool)
      modifies this
      ensures trail == old(trail) + InstallTrail(old(disk), path, releaseId, renames)
      ensures disk == trail[|trail| - 1]
      ensures installed == Installs(old(disk), path, renames)
    {
      Put(disk.(releases := disk.releases - {releaseId}));
      if disk.incoming.None? {
        return false;
      }
      Put(disk.(releases := disk.releases[releaseId := disk.incoming.value], incoming := None));
      Put(With(disk, path, At(disk, path).(previous := Missing)));
      MoveActiveToPrevious(path, renames);
      if !At(disk, path).active.Missing? {
        return false;
      }
      Put(With(disk, path, At(disk, path).(active := Link(releaseId))));
      return true;
    }
  }

  // ----- The steps, as a function -----

  predicate Installs(d: Disk, path: string, renames: bool) {
    d.incoming.Some? && (At(d, path).active.Missing? || renames)
  }

  function Moved(d: Disk, path: string, renames: bool): Disk {
    var active := At(d, path).active;
    if renames && !active.Missing? then With(d, path, Slot(Missing, active)) else d
  }

  /** The states of one installation, in order; it ends early where the agent's step throws. */
  function InstallTrail(d: Disk, path: string, releaseId: string, renames: bool): seq<Disk> {
    var cleared := d.(releases := d.releases - {releaseId});
    if d.incoming.None? then [cleared]
    else
      var placed := cleared.(releases := cleared.releases[releaseId := d.incoming.value], incoming := None);
      var emptied := With(placed, path, At(placed, path).(previous := Missing));
      var moved := Moved(emptied, path, renames);
      if At(moved, path).active.Missing?
      then [cleared, placed, emptied, moved, With(moved, path, At(moved, path).(active := Link(releaseId)))]
      else [cleared, placed, emptied, moved]
  }

  function Install(d: Disk, path: string, releaseId: string, renames: bool): Disk {
    var trail := InstallTrail(d, path, releaseId, renames);
    trail[|trail| - 1]
  }

  // ----- One installation -----

  /** What an installation does to everything it is not about: other paths keep their nodes, and other
      release directories their data, in every state. */
  lemma OthersStay(d: Disk, path: string, releaseId: string, renames: bool, s: Disk)
    requires s in InstallTrail(d, path, releaseId, renames)
    ensures forall other :: other != path ==> At(s, other) == At(d, other)
    ensures forall id :: id != releaseId ==> (id in s.releases <==> id in d.releases)
    ensures forall id :: id != releaseId && id in d.releases ==> s.releases[id] == d.releases[id]
  {
  }

  /** A node of any other path keeps its data in every state of an installation, completed or not, if and
      only if it is not a link to the release being installed. */
  lemma SiblingKeepsItsData(d: Disk, path: string, releaseId: string, renames: bool, n: Node, data: Data)
    requires Resolve(d, n) == Some(data)
    ensures (forall s :: s in InstallTrail(d, path, releaseId, renames) ==> Resolve(s, n) == Some(data))
       <==> n != Link(releaseId)
  {
    var trail := InstallTrail(d, path, releaseId, renames);
    if n == Link(releaseId) {
      assert trail[0] in trail && Resolve(trail[0], n) == None;
    } else {
      forall s | s in trail ensures Resolve(s, n) == Some(data) {
        OthersStay(d, path, releaseId, renames, s);
      }
    }
  }

  /** While a release other than the active one is installed, at every step, completed or not, whether the
      rename works or not, the old active data is reachable, and no other installed release is touched. At
      every other path the active data is kept if its link is not to that release. */
  lemma OldDataStaysReachable(d: Disk, path: string, releaseId: string, renames: bool, data: Data)
    requires Resolve(d, At(d, path).active) == Some(data) && At(d, path).active != Link(releaseId)
    ensures forall s :: s in InstallTrail(d, path, releaseId, renames) ==> Reachable(s, path, data)
    ensures forall s, other ::
              s in InstallTrail(d, path, releaseId, renames) && other in d.releases && other != releaseId ==>
                other in s.releases && s.releases[other] == d.releases[other]
    ensures forall s, sibling ::
              s in InstallTrail(d, path, releaseId, renames) && sibling != path
              && At(d, sibling).active != Link(releaseId) ==>
                At(s, sibling) == At(d, sibling)
                && Resolve(s, At(s, sibling).active) == Resolve(d, At(d, sibling).active)
  {
    forall s, sibling |
      s in InstallTrail(d, path, releaseId, renames) && sibling != path && At(d, sibling).active != Link(releaseId)
      ensures At(s, sibling) == At(d, sibling)
              && Resolve(s, At(s, sibling).active) == Resolve(d, At(d, sibling).active)
    {
      OthersStay(d, path, releaseId, renames, s);
    }
  }

  /** A completed installation of new data: active resolves to the new data, and previous to the old
      active data. */
  lemma CompletedInstall(d: Disk, path: string, releaseId: string, renames: bool)
    requires Installs(d, path, renames)
    ensures var t := Install(d, path, releaseId, renames);
            && Resolve(t, At(t, path).active) == d.incoming && At(t, path).active == Link(releaseId)
            && At(t, path).previous == At(d, path).active
            && (At(d, path).active != Link(releaseId) ==>
                  Resolve(t, At(t, path).previous) == Resolve(d, At(d, path).active))
            && t.releases == d.releases[releaseId := d.incoming.value]
  {
  }

  /** The old data is reachable at every step exactly when the release being installed is not the one that
      is active: installing the active release again begins by deleting it. A second copy of the same
      contents at the previous path would hide that, and is excluded. */
  lemma ReinstallLosesOldData(d: Disk, path: string, releaseId: string, renames: bool, data: Data)
    requires Resolve(d, At(d, path).active) == Some(data)
    requires Resolve(d, At(d, path).previous) != Some(data)
    ensures (forall s :: s in InstallTrail(d, path, releaseId, renames) ==> Reachable(s, path, data))
       <==> At(d, path).active != Link(releaseId)
  {
    var trail := InstallTrail(d, path, releaseId, renames);
    if At(d, path).active == Link(releaseId) {
      assert trail[0] in trail;
      assert !Reachable(trail[0], path, data);
    } else {
      OldDataStaysReachable(d, path, releaseId, renames, data);
    }
  }

  // ----- Runs of completed installations over several paths -----

  datatype Release = Release(path: string, id: string, data: Data)

  /** Each release is unpacked and installed in turn, all installations completing. */
  function InstallAll(d: Disk, run: seq<Release>): Disk {
    if run == [] then d
    else
      var before := InstallAll(d, run[..|run| - 1]);
      var last := run[|run| - 1];
      Install(before.(incoming := Some(last.data)), last.path, last.id, true)
  }

  /** The k-th installation is the last one of the run at its path. */
  predicate LastAtItsPath(run: seq<Release>, k: nat) {
    k < |run| && forall j :: k < j < |run| ==> run[j].path != run[k].path
  }

  /** The k-th installation's release directory is not installed again, at whatever path. */
  predicate NotReused(run: seq<Release>, k: nat) {
    k < |run| && forall j :: k < j < |run| ==> run[j].id != run[k].id
  }

  predicate DistinctData(run: seq<Release>) {
    forall i, j :: 0 <= i < j < |run| ==> run[i].data != run[j].data
  }

  lemma LastInstall(d: Disk, run: seq<Release>)
    requires run != []
    ensures var last := run[|run| - 1];
            var before := InstallAll(d, run[..|run| - 1]);
            var t := InstallAll(d, run);
            && At(t, last.path) == Slot(Link(last.id), At(before, last.path).active)
            && (forall other :: other != last.path ==> At(t, other) == At(before, other))
            && t.releases == before.releases[last.id := last.data]
  {
    var last := run[|run| - 1];
    var before := InstallAll(d, run[..|run| - 1]).(incoming := Some(last.data));
    CompletedInstall(before, last.path, last.id, true);
    var trail := InstallTrail(before, last.path, last.id, true);
    OthersStay(before, last.path, last.id, true, trail[|trail| - 1]);
  }

  lemma NotReusedInPrefix(run: seq<Release>, k: nat)
    requires k < |run| - 1 && DistinctData(run)
    ensures var n := |run| - 1;
            && DistinctData(run[..n]) && run[..n][k] == run[k]
            && (NotReused(run, k) <==> NotReused(run[..n], k) && run[n].id != run[k].id)
            && run[n].data != run[k].data
  {
    assert forall j :: 0 <= j < |run| - 1 ==> run[..|run| - 1][j] == run[j];
  }

  /** The data last installed under an id, at whatever path, or what was there before. */
  function Latest(d: Disk, run: seq<Release>, id: string): Option<Data> {
    if run == [] then (if id in d.releases then Some(d.releases[id]) else None)
    else if run[|run| - 1].id == id then Some(run[|run| - 1].data)
    else Latest(d, run[..|run| - 1], id)
  }

  lemma {:induction false} ReleasesAfterRun(d: Disk, run: seq<Release>, id: string)
    ensures var t := InstallAll(d, run); (if id in t.releases then Some(t.releases[id]) else None) == Latest(d, run, id)
    decreases |run|
  {
    if run != [] {
      LastInstall(d, run);
      ReleasesAfterRun(d, run[..|run| - 1], id);
    }
  }

  lemma {:induction false} LatestIsItsOwn(d: Disk, run: seq<Release>, k: nat)
    requires k < |run| && DistinctData(run)
    ensures Latest(d, run, run[k].id) == Some(run[k].data) <==> NotReused(run, k)
    decreases |run|
  {
    var n := |run| - 1;
    if k < n {
      NotReusedInPrefix(run, k);
      LatestIsItsOwn(d, run[..n], k);
    }
  }

  lemma ReleaseAfterRun(d: Disk, run: seq<Release>, k: nat)
    requires k < |run| && DistinctData(run)
    ensures Resolve(InstallAll(d, run), Link(run[k].id)) == Some(run[k].data) <==> NotReused(run, k)
  {
    ReleasesAfterRun(d, run, run[k].id);
    LatestIsItsOwn(d, run, k);
  }

  lemma LastInPrefix(run: seq<Release>, k: nat)
    requires LastAtItsPath(run, k) && k < |run| - 1
    ensures var n := |run| - 1;
            LastAtItsPath(run[..n], k) && run[..n][k] == run[k] && run[..n][..k] == run[..k]
            && run[n].path != run[k].path
  {
    assert forall j :: 0 <= j < |run| - 1 ==> run[..|run| - 1][j] == run[j];
  }

  /** The slot that a run leaves at the path of its k-th installation, the last one there. */
  lemma {:induction false} SlotAfterRun(d: Disk, run: seq<Release>, k: nat)
    requires LastAtItsPath(run, k)
    ensures At(InstallAll(d, run), run[k].path) ==
              Slot(Link(run[k].id), At(InstallAll(d, run[..k]), run[k].path).active)
    decreases |run|
  {
    var n := |run| - 1;
    LastInstall(d, run);
    if k < n {
      LastInPrefix(run, k);
      SlotAfterRun(d, run[..n], k);
    }
  }

  /** Over any sequence of completed installations, at any paths: the active path of the last installation
      at a path resolves to what was installed there if and only if its release id has not been installed
      again since, there or anywhere beside it. */
  lemma InstalledInSequence(d: Disk, run: seq<Release>, k: nat)
    requires LastAtItsPath(run, k) && DistinctData(run)
    ensures var t := InstallAll(d, run);
            && At(t, run[k].path).active == Link(run[k].id)
            && (Resolve(t, At(t, run[k].path).active) == Some(run[k].data) <==> NotReused(run, k))
  {
    SlotAfterRun(d, run, k);
    ReleaseAfterRun(d, run, k);
  }

  /** And its previous path resolves to what was installed there before if and only if that one's release id
      has not been installed again since, there or anywhere beside it. */
  lemma PreviousInSequence(d: Disk, run: seq<Release>, j: nat, k: nat)
    requires LastAtItsPath(run, k) && DistinctData(run)
    requires j < k && run[j].path == run[k].path && LastAtItsPath(run[..k], j)
    ensures var t := InstallAll(d, run);
            Resolve(t, At(t, run[k].path).previous) == Some(run[j].data) <==> NotReused(run, j)
  {
    SlotAfterRun(d, run, k);
    SlotAfterRun(d, run[..k], j);
    ReleaseAfterRun(d, run, j);
  }

  lemma {:induction false} UntouchedPath(d: Disk, run: seq<Release>, path: string)
    requires forall j :: 0 <= j < |run| ==> run[j].path != path
    ensures At(InstallAll(d, run), path) == At(d, path)
    decreases |run|
  {
    if run != [] {
      LastInstall(d, run);
      UntouchedPath(d, run[..|run| - 1], path);
    }
  }

  lemma {:induction false} LatestIsTheOld(d: Disk, run: seq<Release>, id: string, data: Data)
    requires id in d.releases && d.releases[id] == data && forall j :: 0 <= j < |run| ==> run[j].data != data
    ensures Latest(d, run, id) == Some(data) <==> forall j :: 0 <= j < |run| ==> run[j].id != id
    decreases |run|
  {
    if run != [] {
      LatestIsTheOld(d, run[..|run| - 1], id, data);
      assert run == run[..|run| - 1] + [run[|run| - 1]];
    }
  }

  /** Behind the only installation at a path stands what was active before the run, and it still resolves to
      its old data if and only if no installation, there or beside it, had the id it links to. */
  lemma OldBehindOnlyInstall(d: Disk, run: seq<Release>, k: nat, data: Data)
    requires LastAtItsPath(run, k) && forall j :: 0 <= j < k ==> run[j].path != run[k].path
    requires Resolve(d, At(d, run[k].path).active) == Some(data)
    requires forall j :: 0 <= j < |run| ==> run[j].data != data
    ensures var t, was := InstallAll(d, run), At(d, run[k].path).active;
            && At(t, run[k].path).previous == was
            && (Resolve(t, was) == Some(data) <==> forall j :: 0 <= j < |run| ==> was != Link(run[j].id))
  {
    SlotAfterRun(d, run, k);
    assert forall j :: 0 <= j < k ==> run[..k][j] == run[j];
    UntouchedPath(d, run[..k], run[k].path);
    var was := At(d, run[k].path).active;
    if was.Link? {
      ReleasesAfterRun(d, run, was.release);
      LatestIsTheOld(d, run, was.release, data);
    }
  }

  /** The agent's own sequence does reuse an id: a routing graph and its elevation companion are installed
      under the id of their build, at two paths that share a parent by default. The graph is then gone from
      the first state of the second installation on, and its path ends up at the elevation data, although at
      the elevation path nothing is lost. */
  lemma CompanionReplacesGraph(graphPath: string, companionPath: string, build: string,
                               graph: Data, companion: Data, earlier: Data)
    requires graphPath != companionPath && graph != companion
    ensures var d := Disk(map[companionPath := Slot(Tree(earlier), Missing)], map[], Some(graph));
            var installed := Install(d, graphPath, build, true).(incoming := Some(companion));
            var t := Install(installed, companionPath, build, true);
            && Resolve(installed, At(installed, graphPath).active) == Some(graph)
            && At(installed, companionPath).active != Link(build)
            && (forall s :: s in InstallTrail(installed, companionPath, build, true) ==>
                  !Reachable(s, graphPath, graph) && Reachable(s, companionPath, earlier))
            && Resolve(t, At(t, graphPath).active) == Some(companion)
  {
    var d := Disk(map[companionPath := Slot(Tree(earlier), Missing)], map[], Some(graph));
    var installed := Install(d, graphPath, build, true).(incoming := Some(companion));
    CompletedInstall(d, graphPath, build, true);
    assert At(installed, graphPath) == Slot(Link(build), Missing);
    assert At(installed, companionPath) == Slot(Tree(earlier), Missing);
    OldDataStaysReachable(installed, companionPath, build, true, earlier);
    forall s | s in InstallTrail(installed, companionPath, build, true)
      ensures !Reachable(s, graphPath, graph) && At(s, graphPath) == At(installed, graphPath)
    {
      OthersStay(installed, companionPath, build, true, s);
    }
    CompletedInstall(installed, companionPath, build, true);
  }

  // ----- Installations that are interrupted -----

  /** One attempt to install a release, cut off after a number of steps if it gets that far. */
  datatype Attempt = Attempt(release: Release, renames: bool, steps: nat)

  function FullTrail(d: Disk, a: Attempt): seq<Disk> {
    InstallTrail(d.(incoming := Some(a.release.data)), a.release.path, a.release.id, a.renames)
  }

  /** The states an attempt passes through before it ends or is cut off. */
  function Passed(d: Disk, a: Attempt): seq<Disk> {
    FullTrail(d, a)[..Min(a.steps, |FullTrail(d, a)|)]
  }

  function Stopped(d: Disk, a: Attempt): Disk {
    if Passed(d, a) == [] then d else Passed(d, a)[|Passed(d, a)| - 1]
  }

  function States(d: Disk, attempts: seq<Attempt>): seq<Disk>
    decreases |attempts|
  {
    if attempts == [] then [] else Passed(d, attempts[0]) + States(Stopped(d, attempts[0]), attempts[1..])
  }

  ghost predicate AlwaysReachable(states: seq<Disk>, path: string, data: Data) {
    forall s :: s in states ==> Reachable(s, path, data)
  }

  lemma ReachableInParts(first: seq<Disk>, rest: seq<Disk>, path: string, data: Data)
    ensures AlwaysReachable(first + rest, path, data) <==>
              AlwaysReachable(first, path, data) && AlwaysReachable(rest, path, data)
  {
    assert forall s :: s in first + rest <==> s in first || s in rest;
  }

  /** The attempt clears the directory the node links to, at whatever path it installs. */
  predicate Clears(a: Attempt, n: Node) {
    0 < a.steps && n == Link(a.release.id)
  }

  /** The attempt is cut off between the move of the path and the new link. */
  predicate StopsPastMove(a: Attempt, path: string) {
    a.release.path == path && a.renames && a.steps == 4
  }

  predicate Completes(a: Attempt, path: string) {
    a.release.path == path && a.renames && 5 <= a.steps
  }

  /** The attempt gets as far as removing what is behind the path. */
  predicate RemovesPrevious(a: Attempt, path: string) {
    a.release.path == path && 3 <= a.steps
  }

  predicate IsNew(attempts: seq<Attempt>, data: Data) {
    forall i :: 0 <= i < |attempts| ==> attempts[i].release.data != data
  }

  /** The old data stands behind the path only. */
  predicate BehindPrevious(d: Disk, path: string, data: Data) {
    Resolve(d, At(d, path).active) != Some(data) && Resolve(d, At(d, path).previous) == Some(data)
  }

  /** The old data is active. */
  predicate InPlace(d: Disk, path: string, data: Data) {
    Resolve(d, At(d, path).active) == Some(data) && Resolve(d, At(d, path).previous) != Some(data)
  }

  /** In every state of an attempt at another path a node that is not cleared means what it did, and a node
      that did not resolve to the data still does not. */
  lemma SiblingAttempt(d: Disk, a: Attempt, s: Disk, n: Node, data: Data)
    requires s in Passed(d, a) && a.release.data != data
    ensures forall path :: path != a.release.path ==> At(s, path) == At(d, path)
    ensures Resolve(d, n) == Some(data) && n != Link(a.release.id) ==> Resolve(s, n) == Some(data)
    ensures Resolve(d, n) != Some(data) ==> Resolve(s, n) != Some(data)
    ensures 0 < a.steps && n == Link(a.release.id) ==> Resolve(s, n) != Some(data)
  {
    var full := d.(incoming := Some(a.release.data));
    assert s in FullTrail(d, a);
    assert forall path :: At(full, path) == At(d, path);
    OthersStay(full, a.release.path, a.release.id, a.renames, s);
  }

  lemma StoppedIsPassed(d: Disk, a: Attempt)
    ensures Stopped(d, a) == d || Stopped(d, a) in Passed(d, a)
    ensures 0 < a.steps <==> Passed(d, a) != []
  {
  }

  lemma SiblingAttemptKeeps(d: Disk, a: Attempt, path: string, data: Data)
    requires a.release.path != path && a.release.data != data
    requires InPlace(d, path, data) || BehindPrevious(d, path, data)
    ensures var n := if InPlace(d, path, data) then At(d, path).active else At(d, path).previous;
            && (AlwaysReachable(Passed(d, a), path, data) <==> !Clears(a, n))
            && At(Stopped(d, a), path) == At(d, path)
            && (!Clears(a, n) ==> (InPlace(d, path, data) <==> InPlace(Stopped(d, a), path, data))
                                  && (BehindPrevious(d, path, data) <==> BehindPrevious(Stopped(d, a), path, data)))
  {
    var active, previous := At(d, path).active, At(d, path).previous;
    forall s | s in Passed(d, a)
      ensures At(s, path) == At(d, path)
      ensures InPlace(d, path, data) && !Clears(a, active) ==> InPlace(s, path, data)
      ensures BehindPrevious(d, path, data) && !Clears(a, previous) ==> BehindPrevious(s, path, data)
      ensures InPlace(d, path, data) && Clears(a, active) ==> !Reachable(s, path, data)
      ensures BehindPrevious(d, path, data) && Clears(a, previous) ==> !Reachable(s, path, data)
    {
      SiblingAttempt(d, a, s, active, data);
      SiblingAttempt(d, a, s, previous, data);
    }
    StoppedIsPassed(d, a);
    assert Passed(d, a) != [] ==> Passed(d, a)[0] in Passed(d, a);
  }

  lemma AttemptKeepsNode(d: Disk, a: Attempt, n: Node, data: Data)
    requires Resolve(d, n) == Some(data)
    ensures (forall s :: s in Passed(d, a) ==> Resolve(s, n) == Some(data)) <==> !Clears(a, n)
    ensures !Clears(a, n) ==> Resolve(Stopped(d, a), n) == Some(data)
  {
    var full := d.(incoming := Some(a.release.data));
    StoppedIsPassed(d, a);
    if Clears(a, n) {
      assert Passed(d, a)[0] in Passed(d, a) && Resolve(Passed(d, a)[0], n) == None;
    } else {
      forall s | s in Passed(d, a) ensures Resolve(s, n) == Some(data) {
        assert s in FullTrail(d, a);
        OthersStay(full, a.release.path, a.release.id, a.renames, s);
      }
    }
  }

  /** Over any sequence of attempts at any paths, cut off anywhere or completed: a node keeps its data in
      every state if and only if no attempt installs the release it links to. */
  lemma {:induction false} NodeKeepsItsData(d: Disk, attempts: seq<Attempt>, n: Node, data: Data)
    requires Resolve(d, n) == Some(data)
    ensures (forall s :: s in States(d, attempts) ==> Resolve(s, n) == Some(data))
       <==> forall i :: 0 <= i < |attempts| ==> !Clears(attempts[i], n)
    decreases |attempts|
  {
    if attempts != [] {
      var a, rest := attempts[0], attempts[1..];
      assert attempts == [a] + rest;
      AttemptKeepsNode(d, a, n, data);
      assert forall s :: s in States(d, attempts) <==> s in Passed(d, a) || s in States(Stopped(d, a), rest);
      if !Clears(a, n) {
        NodeKeepsItsData(Stopped(d, a), rest, n, data);
      }
    }
  }

  /** One attempt at a path that is missing while the old data stands behind it. */
  lemma AttemptBehindPrevious(d: Disk, a: Attempt, path: string, data: Data)
    requires a.release.path == path && a.release.data != data
    requires At(d, path).active.Missing? && BehindPrevious(d, path, data)
    ensures AlwaysReachable(Passed(d, a), path, data) <==> !RemovesPrevious(a, path) && !Clears(a, At(d, path).previous)
    ensures !RemovesPrevious(a, path) && !Clears(a, At(d, path).previous) ==>
              BehindPrevious(Stopped(d, a), path, data) && At(Stopped(d, a), path) == At(d, path)
  {
    var trail := FullTrail(d, a);
    assert |trail| == 5;
    assert a.steps >= 1 ==> trail[0] in Passed(d, a);
    assert a.steps >= 3 ==> trail[2] in Passed(d, a);
    assert !Reachable(trail[2], path, data);
  }

  /** While the old data stands behind the path only: the attempts at that path find it missing, or there
      are none. */
  lemma {:induction false} RunBehindPrevious(d: Disk, attempts: seq<Attempt>, path: string, data: Data)
    requires BehindPrevious(d, path, data) && IsNew(attempts, data)
    requires At(d, path).active.Missing? || forall j :: 0 <= j < |attempts| ==> attempts[j].release.path != path
    ensures AlwaysReachable(States(d, attempts), path, data) <==>
              forall j :: 0 <= j < |attempts| ==>
                !RemovesPrevious(attempts[j], path) && !Clears(attempts[j], At(d, path).previous)
    decreases |attempts|
  {
    if attempts != [] {
      var a, rest := attempts[0], attempts[1..];
      var t := Stopped(d, a);
      if a.release.path == path {
        AttemptBehindPrevious(d, a, path, data);
      } else {
        SiblingAttemptKeeps(d, a, path, data);
      }
      ReachableInParts(Passed(d, a), States(t, rest), path, data);
      assert attempts == [a] + rest;
      if !RemovesPrevious(a, path) && !Clears(a, At(d, path).previous) {
        RunBehindPrevious(t, rest, path, data);
      }
    }
  }

  /** Where an attempt at the path leaves the old data that was active: behind it if the attempt got past
      the move, and active still if it did not get there. */
  lemma StopOverActive(d: Disk, a: Attempt, path: string, data: Data)
    requires a.release.path == path && a.release.data != data && InPlace(d, path, data)
    requires !Clears(a, At(d, path).active)
    ensures a.renames && 4 <= a.steps ==>
              var t := Stopped(d, a);
              && BehindPrevious(t, path, data) && At(t, path).previous == At(d, path).active
              && (a.steps == 4 ==> At(t, path).active.Missing?)
    ensures !(a.renames && 4 <= a.steps) ==>
              InPlace(Stopped(d, a), path, data) && At(Stopped(d, a), path).active == At(d, path).active
  {
  }

  /** One attempt at a path while the old data is active there. */
  lemma AttemptOverActive(d: Disk, a: Attempt, path: string, data: Data)
    requires a.release.path == path && a.release.data != data && InPlace(d, path, data)
    ensures AlwaysReachable(Passed(d, a), path, data) <==> !Clears(a, At(d, path).active)
  {
    var trail := FullTrail(d, a);
    var full := d.(incoming := Some(a.release.data));
    if a.steps == 0 {
      assert Passed(d, a) == [];
    } else if At(d, path).active == Link(a.release.id) {
      assert trail[0] in Passed(d, a) && !Reachable(trail[0], path, data);
    } else {
      assert At(full, path) == At(d, path);
      OldDataStaysReachable(full, path, a.release.id, a.renames, data);
      assert forall s :: s in Passed(d, a) ==> s in trail;
    }
  }

  /** What may not happen: an attempt at any path to install the release that is active, or an attempt at
      this path that gets as far as removing what is behind it after one was cut off past its move. */
  ghost predicate Undisturbed(active: Node, path: string, attempts: seq<Attempt>) {
    && (forall i :: 0 <= i < |attempts| ==> !Clears(attempts[i], active))
    && (forall i, j :: 0 <= i < j < |attempts| && StopsPastMove(attempts[i], path) ==>
          !RemovesPrevious(attempts[j], path))
  }

  lemma UndisturbedInParts(active: Node, path: string, a: Attempt, rest: seq<Attempt>)
    ensures Undisturbed(active, path, [a] + rest) <==>
              && !Clears(a, active) && Undisturbed(active, path, rest)
              && (StopsPastMove(a, path) ==> forall j :: 0 <= j < |rest| ==> !RemovesPrevious(rest[j], path))
  {
    var all := [a] + rest;
    assert all[0] == a && forall i :: 0 <= i < |rest| ==> all[i + 1] == rest[i];
    if Undisturbed(active, path, all) {
      forall i | 0 <= i < |rest| ensures !Clears(rest[i], active) {
        assert !Clears(all[i + 1], active);
      }
      forall i, j | 0 <= i < j < |rest| && StopsPastMove(rest[i], path) ensures !RemovesPrevious(rest[j], path) {
        assert StopsPastMove(all[i + 1], path) && !RemovesPrevious(all[j + 1], path);
      }
      forall j | 0 <= j < |rest| && StopsPastMove(a, path) ensures !RemovesPrevious(rest[j], path) {
        assert StopsPastMove(all[0], path) && !RemovesPrevious(all[j + 1], path);
      }
    }
  }

  /** No attempt at the path follows one that completed there. */
  predicate CompletesLast(attempts: seq<Attempt>, path: string) {
    forall i, j :: 0 <= i < j < |attempts| && Completes(attempts[i], path) ==> attempts[j].release.path != path
  }

  lemma AfterCompletion(a: Attempt, rest: seq<Attempt>, path: string)
    requires CompletesLast([a] + rest, path)
    ensures CompletesLast(rest, path)
    ensures Completes(a, path) ==> forall j :: 0 <= j < |rest| ==> rest[j].release.path != path
  {
    var all := [a] + rest;
    assert all[0] == a && forall i :: 0 <= i < |rest| ==> all[i + 1] == rest[i];
    forall i, j | 0 <= i < j < |rest| && Completes(rest[i], path) ensures rest[j].release.path != path {
      assert Completes(all[i + 1], path) && all[j + 1].release.path != path;
    }
    forall j | 0 <= j < |rest| && Completes(a, path) ensures rest[j].release.path != path {
      assert all[j + 1].release.path != path;
    }
  }

  /** Over any sequence of attempts at any paths, cut off anywhere, up to and past the one that completes at
      a path: the old active data of that path is reachable through it in every state if and only if the
      attempts leave it undisturbed. */
  lemma {:induction false} ReachableThroughInterruptions(d: Disk, attempts: seq<Attempt>, path: string, data: Data)
    requires InPlace(d, path, data) && IsNew(attempts, data) && CompletesLast(attempts, path)
    ensures AlwaysReachable(States(d, attempts), path, data) <==> Undisturbed(At(d, path).active, path, attempts)
    decreases |attempts|
  {
    if attempts != [] {
      var a, rest := attempts[0], attempts[1..];
      var active, t := At(d, path).active, Stopped(d, a);
      assert attempts == [a] + rest;
      UndisturbedInParts(active, path, a, rest);
      AfterCompletion(a, rest, path);
      ReachableInParts(Passed(d, a), States(t, rest), path, data);
      if a.release.path != path {
        SiblingAttemptKeeps(d, a, path, data);
        if !Clears(a, active) {
          ReachableThroughInterruptions(t, rest, path, data);
        }
      } else {
        AttemptOverActive(d, a, path, data);
        if !Clears(a, active) {
          StopOverActive(d, a, path, data);
          if a.renames && 4 <= a.steps {
            RunBehindPrevious(t, rest, path, data);
            if Completes(a, path) {
              NothingAtThePath(active, rest, path);
            }
          } else {
            ReachableThroughInterruptions(t, rest, path, data);
          }
        }
      }
    }
  }

  lemma NothingAtThePath(active: Node, attempts: seq<Attempt>, path: string)
    requires forall j :: 0 <= j < |attempts| ==> attempts[j].release.path != path
    ensures Undisturbed(active, path, attempts) <==> forall j :: 0 <= j < |attempts| ==> !Clears(attempts[j], active)
    ensures forall j :: 0 <= j < |attempts| ==> !RemovesPrevious(attempts[j], path)
  {
  }
}
