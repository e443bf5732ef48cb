/**
 Create-only publication of a snapshot and its checksum as one directory rename. Competing installers
 share one parent directory; each builds a private staging directory, renames it without replacement,
 validates, and on failure cleans up only what is still its own. Every operation may fail, may commit
 and then report failure, or may be the last thing a crashed installer did.
 */
module BundleInstall {
  import opened Optional

  type Inode = nat

  datatype FileName = SnapshotFile | ChecksumFile

  /** Hashing is injective, so a checksum is modelled by the snapshot it was taken of. */
  datatype Content = Torn | Snapshot(canonical: string) | Checksum(of: string)

  /** A directory, with the installer that made it. */
  datatype Directory = Directory(owner: nat, files: map<FileName, Content>)

  datatype FileSystem = FileSystem(names: map<string, Inode>, dirs: map<Inode, Directory>)

  datatype Phase =
    | Probing
    | Making
    | Opening
    | CheckingName(ino: Inode)
    | CreatingSnapshot(ino: Inode)
    | FillingSnapshot(ino: Inode)
    | CreatingChecksum(ino: Inode)
    | FillingChecksum(ino: Inode)
    | Rechecking(ino: Inode)
    | Renaming(ino: Inode)
    | Validating
    | CleanupOpening(ino: Inode)
    | CleanupChecking(ino: Inode, found: Inode)
    | CleanupUnlinking(ino: Inode, left: set<FileName>)
    | CleanupRemoving(ino: Inode)
    | Returned(digest: Content)
    | Failed
    | Crashed

  datatype Installer = Installer(canonical: string, token: string, phase: Phase)

  datatype Event =
    | Proceed
    | Allocate(ino: Inode)
    | Pick(f: FileName)
    | Fail(unlinked: bool)
    | CommitThenFail(ino: Inode)
    | Crash

  datatype World = World(destination: string, fs: FileSystem, installers: seq<Installer>)

  function StagingName(destination: string, token: string): (r: string)
    ensures r != destination
  {
    var r := "." + destination + ".staging-" + token;
    assert |r| > |destination|;
    r
  }

  /** Installers with different tokens stage under different names, hidden ones that are not the destination. */
  lemma StagingNamesDiffer(destination: string, a: string, b: string)
    ensures StagingName(destination, a) == StagingName(destination, b) <==> a == b
    ensures StagingName(destination, a)[0] == '.' && StagingName(destination, a) != destination
  {
    var prefix := "." + destination + ".staging-";
    assert StagingName(destination, a) == prefix + a && StagingName(destination, b) == prefix + b;
    assert (prefix + a)[|prefix|..] == a && (prefix + b)[|prefix|..] == b;
  }

  /** The two files of a finished bundle. */
  function Bundle(canonical: string): map<FileName, Content> {
    map[SnapshotFile := Snapshot(canonical), ChecksumFile := Checksum(canonical)]
  }

  /** What validation accepts: exactly two files, the checksum being the snapshot's own. */
  predicate ValidBundle(files: map<FileName, Content>) {
    && files.Keys == {SnapshotFile, ChecksumFile}
    && files[SnapshotFile].Snapshot?
    && files[ChecksumFile] == Checksum(files[SnapshotFile].canonical)
  }

  function SetFile(fs: FileSystem, ino: Inode, f: FileName, c: Content): FileSystem {
    if ino in fs.dirs then
      fs.(dirs := fs.dirs[ino := fs.dirs[ino].(files := fs.dirs[ino].files[f := c])])
    else fs
  }

  function Unlink(fs: FileSystem, ino: Inode, f: FileName): FileSystem {
    if ino in fs.dirs then
      fs.(dirs := fs.dirs[ino := fs.dirs[ino].(files := fs.dirs[ino].files - {f})])
    else fs
  }

  predicate Names(fs: FileSystem, name: string, ino: Inode) { name in fs.names && fs.names[name] == ino }

  predicate HasFile(fs: FileSystem, ino: Inode, f: FileName) { ino in fs.dirs && f in fs.dirs[ino].files }

  /** `mkdir`. */
  function MakeDirectory(fs: FileSystem, name: string, ino: Inode, owner: nat): FileSystem {
    FileSystem(fs.names[name := ino], fs.dirs[ino := Directory(owner, map[])])
  }

  /** The no-replace rename moves whatever the source names; it is atomic. */
  function Rename(fs: FileSystem, source: string, destination: string): FileSystem
    requires source in fs.names
  {
    fs.(names := (fs.names - {source})[destination := fs.names[source]])
  }

  /** One exclusive, private write: create empty, then fill; a failure unlinks the name if it can. */
  function Create(fs: FileSystem, ino: Inode, f: FileName, next: Phase, e: Event): (FileSystem, Phase) {
    match e
    case Proceed => if HasFile(fs, ino, f) then (fs, CleanupOpening(ino)) else (SetFile(fs, ino, f, Torn), next)
    case Fail(_) => (fs, CleanupOpening(ino))
    case _ => (fs, CleanupOpening(ino))
  }

  function Fill(fs: FileSystem, ino: Inode, f: FileName, c: Content, next: Phase, e: Event): (FileSystem, Phase) {
    match e
    case Proceed => (SetFile(fs, ino, f, c), next)
    case Fail(unlinked) => (if unlinked then Unlink(fs, ino, f) else fs, CleanupOpening(ino))
    case CommitThenFail(_) => (Unlink(SetFile(fs, ino, f, c), ino, f), CleanupOpening(ino))
    case _ => (fs, CleanupOpening(ino))
  }

  function Step(destination: string, fs: FileSystem, inst: Installer, id: nat, e: Event): (FileSystem, Phase) {
    var staging := StagingName(destination, inst.token);
    if inst.phase.Returned? || inst.phase.Failed? || inst.phase.Crashed? then (fs, inst.phase)
    else if e.Crash? then (fs, Crashed)
    else
      match inst.phase
      case Probing => (fs, if e.Proceed? && destination !in fs.names then Making else Failed)
      case Making =>
        if (e.Allocate? || e.CommitThenFail?) && staging !in fs.names && e.ino !in fs.dirs then
          (MakeDirectory(fs, staging, e.ino, id), if e.Allocate? then Opening else Failed)
        else (fs, Failed)
      case Opening =>
        (fs, if e.Proceed? && staging in fs.names then CheckingName(fs.names[staging]) else Failed)
      case CheckingName(ino) =>
        (fs, if e.Proceed? && Names(fs, staging, ino) then CreatingSnapshot(ino) else CleanupOpening(ino))
      case CreatingSnapshot(ino) => Create(fs, ino, SnapshotFile, FillingSnapshot(ino), e)
      case FillingSnapshot(ino) => Fill(fs, ino, SnapshotFile, Snapshot(inst.canonical), CreatingChecksum(ino), e)
      case CreatingChecksum(ino) => Create(fs, ino, ChecksumFile, FillingChecksum(ino), e)
      case FillingChecksum(ino) => Fill(fs, ino, ChecksumFile, Checksum(inst.canonical), Rechecking(ino), e)
      case Rechecking(ino) =>
        (fs, if e.Proceed? && Names(fs, staging, ino) then Renaming(ino) else CleanupOpening(ino))
      case Renaming(ino) =>
        if (e.Proceed? || e.CommitThenFail?) && staging in fs.names && destination !in fs.names then
          (Rename(fs, staging, destination), if e.Proceed? then Validating else CleanupOpening(ino))
        else (fs, CleanupOpening(ino))
      case Validating =>
        (fs, if e.Proceed? && Installed(fs, destination) == Some(inst.canonical)
             then Returned(Checksum(inst.canonical)) else Failed)
      case CleanupOpening(ino) =>
        (fs, if e.Proceed? && staging in fs.names then CleanupChecking(ino, fs.names[staging]) else Failed)
      case CleanupChecking(ino, found) =>
        (fs, if e.Proceed? && found == ino && Names(fs, staging, ino)
             then CleanupUnlinking(ino, {SnapshotFile, ChecksumFile}) else Failed)
      case CleanupUnlinking(ino, left) =>
        if e.Pick? && e.f in left then
          (Unlink(fs, ino, e.f), if left == {e.f} then CleanupRemoving(ino) else CleanupUnlinking(ino, left - {e.f}))
        else (fs, Failed)
      case CleanupRemoving(ino) =>
        if e.Proceed? && staging in fs.names && fs.names[staging] in fs.dirs && fs.dirs[fs.names[staging]].files == map[] then
          (FileSystem(fs.names - {staging}, fs.dirs - {fs.names[staging]}), Failed)
        else (fs, Failed)
  }

  /** The digest validation computes, by the snapshot it is of; `None` when validation refuses. */
  function Installed(fs: FileSystem, destination: string): Option<string> {
    if destination in fs.names && fs.names[destination] in fs.dirs && ValidBundle(fs.dirs[fs.names[destination]].files)
    then Some(fs.dirs[fs.names[destination]].files[SnapshotFile].canonical)
    else None
  }

  /** Validation computes a digest exactly of the two-file bundle of one snapshot, and then of that snapshot. */
  lemma InstalledExactly(fs: FileSystem, destination: string, canonical: string)
    ensures Installed(fs, destination) == Some(canonical) <==>
      && destination in fs.names && fs.names[destination] in fs.dirs
      && fs.dirs[fs.names[destination]].files == map[SnapshotFile := Snapshot(canonical), ChecksumFile := Checksum(canonical)]
  {
    if Installed(fs, destination) == Some(canonical) {
      var files := fs.dirs[fs.names[destination]].files;
      assert files.Keys == {SnapshotFile, ChecksumFile};
      assert files == map[SnapshotFile := Snapshot(canonical), ChecksumFile := Checksum(canonical)];
    }
  }

  function Next(w: World, id: nat, e: Event): World
    requires id < |w.installers|
  {
    var (fs, phase) := Step(w.destination, w.fs, w.installers[id], id, e);
    w.(fs := fs, installers := w.installers[id := w.installers[id].(phase := phase)])
  }

  function Run(w: World, schedule: seq<(nat, Event)>): World {
    if schedule == [] then w
    else
      var n := |schedule| - 1;
      var before := Run(w, schedule[..n]);
      if schedule[n].0 < |before.installers| then Next(before, schedule[n].0, schedule[n].1) else before
  }

  ghost predicate Start(w: World) {
    && w.fs == FileSystem(map[], map[])
    && forall i :: 0 <= i < |w.installers| ==> w.installers[i].phase == Probing
  }

  // ---------------------------------------------------------------- the invariant

  /** No two names share a directory, and every directory is named. */
  ghost predicate Sound(fs: FileSystem) {
    && (forall n :: n in fs.names ==> fs.names[n] in fs.dirs)
    && (forall n, m :: n in fs.names && m in fs.names && fs.names[n] == fs.names[m] ==> n == m)
  }

  /** The installer's own directory stands under its staging name with these files. */
  ghost predicate Staged(fs: FileSystem, staging: string, id: nat, ino: Inode) {
    Names(fs, staging, ino) && ino in fs.dirs && fs.dirs[ino].owner == id
  }

  ghost predicate Published(fs: FileSystem, destination: string, id: nat) {
    destination in fs.names && fs.names[destination] in fs.dirs && fs.dirs[fs.names[destination]].owner == id
  }

  ghost predicate PhaseHolds(destination: string, fs: FileSystem, inst: Installer, id: nat) {
    var staging := StagingName(destination, inst.token);
    match inst.phase
    case Opening => staging in fs.names && Staged(fs, staging, id, fs.names[staging]) && fs.dirs[fs.names[staging]].files == map[]
    case CheckingName(ino) => Staged(fs, staging, id, ino) && fs.dirs[ino].files == map[]
    case CreatingSnapshot(ino) => Staged(fs, staging, id, ino) && fs.dirs[ino].files == map[]
    case FillingSnapshot(ino) => Staged(fs, staging, id, ino) && fs.dirs[ino].files == map[SnapshotFile := Torn]
    case CreatingChecksum(ino) =>
      Staged(fs, staging, id, ino) && fs.dirs[ino].files == map[SnapshotFile := Snapshot(inst.canonical)]
    case FillingChecksum(ino) =>
      && Staged(fs, staging, id, ino)
      && fs.dirs[ino].files == map[SnapshotFile := Snapshot(inst.canonical), ChecksumFile := Torn]
    case Rechecking(ino) => Staged(fs, staging, id, ino) && fs.dirs[ino].files == Bundle(inst.canonical)
    case Renaming(ino) => Staged(fs, staging, id, ino) && fs.dirs[ino].files == Bundle(inst.canonical)
    case Validating => Published(fs, destination, id)
    case CleanupOpening(ino) => Staged(fs, staging, id, ino) || (Published(fs, destination, id) && fs.names[destination] == ino)
    case CleanupChecking(ino, found) =>
      && (Staged(fs, staging, id, ino) || (Published(fs, destination, id) && fs.names[destination] == ino))
      && (found == ino ==> Staged(fs, staging, id, ino))
    case CleanupUnlinking(ino, left) => Staged(fs, staging, id, ino) && left != {}
    case CleanupRemoving(ino) => Staged(fs, staging, id, ino)
    case Returned(digest) => Published(fs, destination, id) && digest == Checksum(inst.canonical)
    case _ => true
  }

  /** The destination is absent or a complete bundle of the installer that published it. */
  ghost predicate AbsentOrComplete(w: World) {
    w.destination in w.fs.names ==>
      && w.fs.names[w.destination] in w.fs.dirs
      && var d := w.fs.dirs[w.fs.names[w.destination]];
      && d.owner < |w.installers|
      && d.files == Bundle(w.installers[d.owner].canonical)
  }

  ghost predicate Inv(w: World) {
    && Sound(w.fs)
    && AbsentOrComplete(w)
    && forall i: nat :: i < |w.installers| ==> PhaseHolds(w.destination, w.fs, w.installers[i], i)
  }

  /** A bound destination stays bound to the same directory with the same files. */
  ghost predicate DestinationKept(destination: string, fs: FileSystem, fs': FileSystem) {
    destination in fs.names && fs.names[destination] in fs.dirs ==>
      && destination in fs'.names
      && fs'.names[destination] == fs.names[destination]
      && fs.names[destination] in fs'.dirs
      && fs'.dirs[fs.names[destination]] == fs.dirs[fs.names[destination]]
  }

  // ---------------------------------------------------------------- one step

  /** Directories of other installers are untouched, and new ones are the stepping installer's. */
  ghost predicate OwnDirectories(fs: FileSystem, fs': FileSystem, id: nat) {
    && (forall d :: d in fs.dirs && fs.dirs[d].owner != id ==> d in fs'.dirs && fs'.dirs[d] == fs.dirs[d])
    && (forall d :: d in fs'.dirs && d !in fs.dirs ==> fs'.dirs[d].owner == id)
    && (forall d :: d in fs'.dirs && d in fs.dirs ==> fs'.dirs[d].owner == fs.dirs[d].owner)
  }

  /** Names bound to other installers' directories are untouched. */
  ghost predicate OwnNames(fs: FileSystem, fs': FileSystem, id: nat) {
    forall n :: n in fs.names && fs.names[n] in fs.dirs && fs.dirs[fs.names[n]].owner != id ==>
      n in fs'.names && fs'.names[n] == fs.names[n]
  }

  ghost predicate OwnTouch(fs: FileSystem, fs': FileSystem, id: nat) { OwnDirectories(fs, fs', id) && OwnNames(fs, fs', id) }

  lemma StepTouchesOwnDirectories(destination: string, fs: FileSystem, inst: Installer, id: nat, e: Event)
    requires Sound(fs) && PhaseHolds(destination, fs, inst, id)
    ensures OwnDirectories(fs, Step(destination, fs, inst, id, e).0, id)
  {}

  lemma StepTouchesOwnNames(destination: string, fs: FileSystem, inst: Installer, id: nat, e: Event)
    requires Sound(fs) && PhaseHolds(destination, fs, inst, id)
    ensures OwnNames(fs, Step(destination, fs, inst, id, e).0, id)
  {}

  lemma StepKeepsSound(destination: string, fs: FileSystem, inst: Installer, id: nat, e: Event)
    requires Sound(fs) && PhaseHolds(destination, fs, inst, id)
    ensures Sound(Step(destination, fs, inst, id, e).0)
  {}

  lemma StepKeepsPhase(destination: string, fs: FileSystem, inst: Installer, id: nat, e: Event)
    requires Sound(fs) && PhaseHolds(destination, fs, inst, id)
    ensures var (fs', phase) := Step(destination, fs, inst, id, e);
      PhaseHolds(destination, fs', inst.(phase := phase), id)
  {}

  lemma StepKeepsDestination(destination: string, fs: FileSystem, inst: Installer, id: nat, e: Event)
    requires Sound(fs) && PhaseHolds(destination, fs, inst, id)
    ensures DestinationKept(destination, fs, Step(destination, fs, inst, id, e).0)
  {}

  lemma StepPublishesComplete(destination: string, fs: FileSystem, inst: Installer, id: nat, e: Event)
    requires Sound(fs) && PhaseHolds(destination, fs, inst, id) && destination !in fs.names
    ensures var fs' := Step(destination, fs, inst, id, e).0;
      destination in fs'.names ==>
        Published(fs', destination, id) && fs'.dirs[fs'.names[destination]].files == Bundle(inst.canonical)
  {}

  lemma OthersKeepPhase(destination: string, fs: FileSystem, fs': FileSystem, id: nat, other: Installer, j: nat)
    requires Sound(fs) && OwnTouch(fs, fs', id) && DestinationKept(destination, fs, fs')
    requires j != id && PhaseHolds(destination, fs, other, j)
    ensures PhaseHolds(destination, fs', other, j)
  {}
}
