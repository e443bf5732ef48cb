/** What every schedule of competing installers keeps, and what an undisturbed installer achieves. */
module BundleSafety {
  import opened Optional
  import opened BundleInstall

  /** Every step, failed or committed or lost, keeps the invariant and any bound destination. */
  lemma NextSafe(w: World, id: nat, e: Event)
    requires Inv(w) && id < |w.installers|
    ensures Inv(Next(w, id, e)) && DestinationKept(w.destination, w.fs, Next(w, id, e).fs)
  {
    var inst := w.installers[id];
    var w' := Next(w, id, e);
    StepTouchesOwnDirectories(w.destination, w.fs, inst, id, e);
    StepTouchesOwnNames(w.destination, w.fs, inst, id, e);
    StepKeepsSound(w.destination, w.fs, inst, id, e);
    StepKeepsPhase(w.destination, w.fs, inst, id, e);
    StepKeepsDestination(w.destination, w.fs, inst, id, e);
    if w.destination !in w.fs.names {
      StepPublishesComplete(w.destination, w.fs, inst, id, e);
    }
    forall i: nat | i < |w'.installers| ensures PhaseHolds(w'.destination, w'.fs, w'.installers[i], i) {
      if i != id {
        OthersKeepPhase(w.destination, w.fs, w'.fs, id, w.installers[i], i);
      }
    }
  }

  lemma {:induction false} RunSafe(w: World, schedule: seq<(nat, Event)>)
    requires Inv(w)
    ensures Inv(Run(w, schedule)) && Run(w, schedule).destination == w.destination
    ensures DestinationKept(w.destination, w.fs, Run(w, schedule).fs)
    ensures |Run(w, schedule).installers| == |w.installers|
    ensures forall i :: 0 <= i < |w.installers| ==> Run(w, schedule).installers[i].canonical == w.installers[i].canonical
  {
    if schedule != [] {
      var n := |schedule| - 1;
      RunSafe(w, schedule[..n]);
      var before := Run(w, schedule[..n]);
      if schedule[n].0 < |before.installers| {
        NextSafe(before, schedule[n].0, schedule[n].1);
      }
    }
  }

  lemma StartHolds(w: World)
    requires Start(w)
    ensures Inv(w)
  {}

  lemma {:induction false} RunSplits(w: World, a: seq<(nat, Event)>, b: seq<(nat, Event)>)
    ensures Run(w, a + b) == Run(Run(w, a), b)
  {
    if b == [] {
      assert a + b == a;
    } else {
      var n := |b| - 1;
      RunSplits(w, a, b[..n]);
      assert (a + b)[..|a + b| - 1] == a + b[..n];
    }
  }

  // ---------------------------------------------------------------- main results

  /** The destination is absent, or holds exactly one installer's snapshot with its matching checksum: never half. */
  lemma NeverHalfInstalled(w: World, schedule: seq<(nat, Event)>)
    requires Start(w)
    ensures var fs := Run(w, schedule).fs;
      w.destination in fs.names ==>
        && fs.names[w.destination] in fs.dirs
        && exists i :: 0 <= i < |w.installers| && fs.dirs[fs.names[w.destination]].files == Bundle(w.installers[i].canonical)
  {
    StartHolds(w);
    RunSafe(w, schedule);
  }

  /** Once bound, the destination keeps its directory and its bytes for ever. */
  lemma InstalledForEver(w: World, now: seq<(nat, Event)>, later: seq<(nat, Event)>)
    requires Start(w) && w.destination in Run(w, now).fs.names
    ensures var fs, fs' := Run(w, now).fs, Run(w, now + later).fs;
      && w.destination in fs'.names
      && fs'.names[w.destination] == fs.names[w.destination]
      && fs.names[w.destination] in fs.dirs && fs.names[w.destination] in fs'.dirs
      && fs'.dirs[fs.names[w.destination]] == fs.dirs[fs.names[w.destination]]
  {
    StartHolds(w);
    RunSafe(w, now);
    RunSafe(Run(w, now), later);
    RunSplits(w, now, later);
  }

  /** An installer that returned has its own snapshot installed, and only one installer ever returns. */
  lemma ReturnedMeansInstalled(w: World, schedule: seq<(nat, Event)>, i: nat, j: nat)
    requires Start(w) && i < |w.installers| && j < |w.installers|
    requires |Run(w, schedule).installers| == |w.installers| && Run(w, schedule).installers[i].phase.Returned?
    ensures Installed(Run(w, schedule).fs, w.destination) == Some(w.installers[i].canonical)
    ensures Run(w, schedule).installers[i].phase.digest == Checksum(w.installers[i].canonical)
    ensures Run(w, schedule).installers[j].phase.Returned? ==> i == j
  {
    StartHolds(w);
    RunSafe(w, schedule);
    var end := Run(w, schedule);
    assert PhaseHolds(end.destination, end.fs, end.installers[i], i);
    assert PhaseHolds(end.destination, end.fs, end.installers[j], j);
  }

  /** Cleanup never holds the published directory, even after a rename that committed and then reported failure. */
  lemma CleanupNeverHoldsPublished(w: World, schedule: seq<(nat, Event)>, i: nat, ino: Inode)
    requires Start(w) && i < |Run(w, schedule).installers| && w.destination in Run(w, schedule).fs.names
    requires var p := Run(w, schedule).installers[i].phase;
      (p.CleanupUnlinking? && p.ino == ino) || (p.CleanupRemoving? && p.ino == ino)
    ensures Run(w, schedule).fs.names[w.destination] != ino
  {
    StartHolds(w);
    RunSafe(w, schedule);
    var end := Run(w, schedule);
    assert PhaseHolds(end.destination, end.fs, end.installers[i], i);
  }

  // ---------------------------------------------------------------- undisturbed runs

  /** The world with installer `id` moved to a phase over a file system. */
  function At(w: World, id: nat, fs: FileSystem, phase: Phase): World
    requires id < |w.installers|
  {
    w.(fs := fs, installers := w.installers[id := w.installers[id].(phase := phase)])
  }

  function Tagged(id: nat, events: seq<Event>): seq<(nat, Event)> {
    seq(|events|, i requires 0 <= i < |events| => (id, events[i]))
  }

  lemma RunFirst(w: World, id: nat, fs: FileSystem, p: Phase, e: Event, rest: seq<Event>, fs': FileSystem, p': Phase)
    requires id < |w.installers|
    requires Step(w.destination, fs, w.installers[id].(phase := p), id, e) == (fs', p')
    ensures Run(At(w, id, fs, p), Tagged(id, [e] + rest)) == Run(At(w, id, fs', p'), Tagged(id, rest))
  {
    var first := [(id, e)];
    assert Tagged(id, [e] + rest) == first + Tagged(id, rest);
    assert first[..0] == [];
    RunSplits(At(w, id, fs, p), first, Tagged(id, rest));
    assert Run(At(w, id, fs, p), first) == Next(At(w, id, fs, p), id, e);
    assert Next(At(w, id, fs, p), id, e) == At(w, id, fs', p');
  }

  function Cleanup(rest: seq<Event>): seq<Event> {
    [Proceed] + ([Proceed] + ([Pick(SnapshotFile)] + ([Pick(ChecksumFile)] + ([Proceed] + rest))))
  }

  lemma CleanupOpens(w: World, id: nat, fs: FileSystem, ino: Inode, rest: seq<Event>)
    requires id < |w.installers| && Staged(fs, StagingName(w.destination, w.installers[id].token), id, ino)
    ensures Run(At(w, id, fs, CleanupOpening(ino)), Tagged(id, [Proceed] + ([Proceed] + rest)))
         == Run(At(w, id, fs, CleanupUnlinking(ino, {SnapshotFile, ChecksumFile})), Tagged(id, rest))
  {
    RunFirst(w, id, fs, CleanupOpening(ino), Proceed, [Proceed] + rest, fs, CleanupChecking(ino, ino));
    RunFirst(w, id, fs, CleanupChecking(ino, ino), Proceed, rest, fs, CleanupUnlinking(ino, {SnapshotFile, ChecksumFile}));
  }

  lemma CleanupUnlinks(w: World, id: nat, fs: FileSystem, ino: Inode, rest: seq<Event>)
    requires id < |w.installers|
    ensures Run(At(w, id, fs, CleanupUnlinking(ino, {SnapshotFile, ChecksumFile})),
                Tagged(id, [Pick(SnapshotFile)] + ([Pick(ChecksumFile)] + rest)))
         == Run(At(w, id, Unlink(Unlink(fs, ino, SnapshotFile), ino, ChecksumFile), CleanupRemoving(ino)), Tagged(id, rest))
  {
    var fs1 := Unlink(fs, ino, SnapshotFile);
    var both := {SnapshotFile, ChecksumFile};
    assert ChecksumFile in both;
    assert both - {SnapshotFile} == {ChecksumFile};
    RunFirst(w, id, fs, CleanupUnlinking(ino, both), Pick(SnapshotFile), [Pick(ChecksumFile)] + rest,
             fs1, CleanupUnlinking(ino, {ChecksumFile}));
    RunFirst(w, id, fs1, CleanupUnlinking(ino, {ChecksumFile}), Pick(ChecksumFile), rest,
             Unlink(fs1, ino, ChecksumFile), CleanupRemoving(ino));
  }

  /** An undisturbed cleanup of a staging directory removes its name and its inode and nothing else. */
  lemma CleanupLeavesNoTrace(w: World, id: nat, fs: FileSystem, ino: Inode)
    requires id < |w.installers| && Staged(fs, StagingName(w.destination, w.installers[id].token), id, ino)
    requires fs.dirs[ino].files.Keys <= {SnapshotFile, ChecksumFile}
    ensures Run(At(w, id, fs, CleanupOpening(ino)), Tagged(id, Cleanup([])))
         == At(w, id, FileSystem(fs.names - {StagingName(w.destination, w.installers[id].token)}, fs.dirs - {ino}), Failed)
  {
    var emptied := Unlink(Unlink(fs, ino, SnapshotFile), ino, ChecksumFile);
    CleanupOpens(w, id, fs, ino, [Pick(SnapshotFile)] + ([Pick(ChecksumFile)] + ([Proceed] + [])));
    CleanupUnlinks(w, id, fs, ino, [Proceed] + []);
    assert emptied.dirs[ino].files == map[];
    assert emptied.dirs - {ino} == fs.dirs - {ino};
    RunFirst(w, id, emptied, CleanupRemoving(ino), Proceed, [],
             FileSystem(fs.names - {StagingName(w.destination, w.installers[id].token)}, fs.dirs - {ino}), Failed);
  }

  /** A rename that committed and then reported failure: cleanup finds nothing to remove and leaves the bundle. */
  lemma LostResponseKeepsBundle(w: World, id: nat, fs: FileSystem, ino: Inode)
    requires id < |w.installers| && Staged(fs, StagingName(w.destination, w.installers[id].token), id, ino)
    requires w.destination !in fs.names
    ensures Run(At(w, id, fs, Renaming(ino)), Tagged(id, [CommitThenFail(ino)] + Cleanup([])))
         == At(w, id, Rename(fs, StagingName(w.destination, w.installers[id].token), w.destination), Failed)
  {
    var fs' := Rename(fs, StagingName(w.destination, w.installers[id].token), w.destination);
    var rest := [Proceed] + ([Pick(SnapshotFile)] + ([Pick(ChecksumFile)] + ([Proceed] + [])));
    RunFirst(w, id, fs, Renaming(ino), CommitThenFail(ino), Cleanup([]), fs', CleanupOpening(ino));
    RunFirst(w, id, fs', CleanupOpening(ino), Proceed, rest, fs', Failed);
    StoppedStays(At(w, id, fs', Failed), id, Tagged(id, rest));
  }

  lemma {:induction false} StoppedStays(w: World, id: nat, schedule: seq<(nat, Event)>)
    requires id < |w.installers| && w.installers[id].phase.Failed?
    requires forall k :: 0 <= k < |schedule| ==> schedule[k].0 == id
    ensures Run(w, schedule) == w
  {
    if schedule != [] {
      StoppedStays(w, id, schedule[..|schedule| - 1]);
      assert w.installers[id := w.installers[id].(phase := w.installers[id].phase)] == w.installers;
    }
  }

  function Building(ino: Inode, rest: seq<Event>): seq<Event> {
    [Proceed] + ([Allocate(ino)] + ([Proceed] + ([Proceed] + rest)))
  }

  function Writing(rest: seq<Event>): seq<Event> { [Proceed] + ([Proceed] + ([Proceed] + ([Proceed] + rest))) }

  function Publishing(): seq<Event> { [Proceed] + ([Proceed] + ([Proceed] + [])) }

  function Undisturbed(ino: Inode): seq<Event> { Building(ino, Writing(Publishing())) }

  /** The parent after a bundle has been published under a fresh inode. */
  function WithBundle(fs: FileSystem, destination: string, ino: Inode, owner: nat, canonical: string): FileSystem {
    FileSystem(fs.names[destination := ino], fs.dirs[ino := Directory(owner, Bundle(canonical))])
  }

  lemma BuildingRuns(w: World, id: nat, ino: Inode, rest: seq<Event>)
    requires id < |w.installers| && ino !in w.fs.dirs && w.destination !in w.fs.names
    requires StagingName(w.destination, w.installers[id].token) !in w.fs.names
    ensures var staging := StagingName(w.destination, w.installers[id].token);
      Run(At(w, id, w.fs, Probing), Tagged(id, Building(ino, rest)))
      == Run(At(w, id, MakeDirectory(w.fs, staging, ino, id), CreatingSnapshot(ino)), Tagged(id, rest))
  {
    var fs1 := MakeDirectory(w.fs, StagingName(w.destination, w.installers[id].token), ino, id);
    MakingRuns(w, id, ino, [Proceed] + ([Proceed] + rest));
    RunFirst(w, id, fs1, Opening, Proceed, [Proceed] + rest, fs1, CheckingName(ino));
    RunFirst(w, id, fs1, CheckingName(ino), Proceed, rest, fs1, CreatingSnapshot(ino));
  }

  lemma MakingRuns(w: World, id: nat, ino: Inode, rest: seq<Event>)
    requires id < |w.installers| && ino !in w.fs.dirs && w.destination !in w.fs.names
    requires StagingName(w.destination, w.installers[id].token) !in w.fs.names
    ensures var staging := StagingName(w.destination, w.installers[id].token);
      Run(At(w, id, w.fs, Probing), Tagged(id, [Proceed] + ([Allocate(ino)] + rest)))
      == Run(At(w, id, MakeDirectory(w.fs, staging, ino, id), Opening), Tagged(id, rest))
  {
    var fs1 := MakeDirectory(w.fs, StagingName(w.destination, w.installers[id].token), ino, id);
    RunFirst(w, id, w.fs, Probing, Proceed, [Allocate(ino)] + rest, w.fs, Making);
    RunFirst(w, id, w.fs, Making, Allocate(ino), rest, fs1, Opening);
  }

  /** The staging directory with the given files. */
  function StagedWith(fs: FileSystem, ino: Inode, owner: nat, files: map<FileName, Content>): FileSystem {
    fs.(dirs := fs.dirs[ino := Directory(owner, files)])
  }

  lemma SetStaged(fs: FileSystem, ino: Inode, owner: nat, files: map<FileName, Content>, f: FileName, c: Content)
    ensures SetFile(StagedWith(fs, ino, owner, files), ino, f, c) == StagedWith(fs, ino, owner, files[f := c])
  {
    var a := StagedWith(fs, ino, owner, files);
    assert a.dirs[ino := Directory(owner, files[f := c])] == fs.dirs[ino := Directory(owner, files[f := c])];
  }

  lemma SnapshotRuns(w: World, id: nat, fs: FileSystem, ino: Inode, rest: seq<Event>)
    requires id < |w.installers|
    ensures Run(At(w, id, StagedWith(fs, ino, id, map[]), CreatingSnapshot(ino)), Tagged(id, [Proceed] + ([Proceed] + rest)))
         == Run(At(w, id, StagedWith(fs, ino, id, map[SnapshotFile := Snapshot(w.installers[id].canonical)]),
                   CreatingChecksum(ino)), Tagged(id, rest))
  {
    var canonical := w.installers[id].canonical;
    var torn, full := map[SnapshotFile := Torn], map[SnapshotFile := Snapshot(canonical)];
    SetStaged(fs, ino, id, map[], SnapshotFile, Torn);
    SetStaged(fs, ino, id, torn, SnapshotFile, Snapshot(canonical));
    assert torn[SnapshotFile := Snapshot(canonical)] == full;
    RunFirst(w, id, StagedWith(fs, ino, id, map[]), CreatingSnapshot(ino), Proceed, [Proceed] + rest,
             StagedWith(fs, ino, id, torn), FillingSnapshot(ino));
    RunFirst(w, id, StagedWith(fs, ino, id, torn), FillingSnapshot(ino), Proceed, rest,
             StagedWith(fs, ino, id, full), CreatingChecksum(ino));
  }

  lemma ChecksumRuns(w: World, id: nat, fs: FileSystem, ino: Inode, rest: seq<Event>)
    requires id < |w.installers|
    ensures Run(At(w, id, StagedWith(fs, ino, id, map[SnapshotFile := Snapshot(w.installers[id].canonical)]),
                   CreatingChecksum(ino)), Tagged(id, [Proceed] + ([Proceed] + rest)))
         == Run(At(w, id, StagedWith(fs, ino, id, Bundle(w.installers[id].canonical)), Rechecking(ino)), Tagged(id, rest))
  {
    var canonical := w.installers[id].canonical;
    var one := map[SnapshotFile := Snapshot(canonical)];
    var torn := one[ChecksumFile := Torn];
    SetStaged(fs, ino, id, one, ChecksumFile, Torn);
    SetStaged(fs, ino, id, torn, ChecksumFile, Checksum(canonical));
    assert torn[ChecksumFile := Checksum(canonical)] == Bundle(canonical);
    RunFirst(w, id, StagedWith(fs, ino, id, one), CreatingChecksum(ino), Proceed, [Proceed] + rest,
             StagedWith(fs, ino, id, torn), FillingChecksum(ino));
    RunFirst(w, id, StagedWith(fs, ino, id, torn), FillingChecksum(ino), Proceed, rest,
             StagedWith(fs, ino, id, Bundle(canonical)), Rechecking(ino));
  }

  lemma PublishingRuns(w: World, id: nat, fs: FileSystem, ino: Inode)
    requires id < |w.installers| && w.destination !in fs.names
    requires Staged(fs, StagingName(w.destination, w.installers[id].token), id, ino)
    requires fs.dirs[ino].files == Bundle(w.installers[id].canonical)
    ensures Run(At(w, id, fs, Rechecking(ino)), Tagged(id, Publishing()))
         == At(w, id, Rename(fs, StagingName(w.destination, w.installers[id].token), w.destination),
               Returned(Checksum(w.installers[id].canonical)))
  {
    var fs' := Rename(fs, StagingName(w.destination, w.installers[id].token), w.destination);
    RunFirst(w, id, fs, Rechecking(ino), Proceed, [Proceed] + ([Proceed] + []), fs, Renaming(ino));
    RunFirst(w, id, fs, Renaming(ino), Proceed, [Proceed] + [], fs', Validating);
    RunFirst(w, id, fs', Validating, Proceed, [], fs', Returned(Checksum(w.installers[id].canonical)));
  }

  /** Left alone, an installer publishes its bundle, returns its digest, and leaves no staging name behind. */
  lemma UndisturbedInstall(w: World, id: nat, ino: Inode)
    requires id < |w.installers| && ino !in w.fs.dirs && w.destination !in w.fs.names
    requires StagingName(w.destination, w.installers[id].token) !in w.fs.names
    ensures Run(At(w, id, w.fs, Probing), Tagged(id, Undisturbed(ino)))
         == At(w, id, WithBundle(w.fs, w.destination, ino, id, w.installers[id].canonical),
               Returned(Checksum(w.installers[id].canonical)))
  {
    var staging := StagingName(w.destination, w.installers[id].token);
    var named := FileSystem(w.fs.names[staging := ino], w.fs.dirs);
    var built := StagedWith(named, ino, id, Bundle(w.installers[id].canonical));
    BuildingRuns(w, id, ino, Writing(Publishing()));
    assert MakeDirectory(w.fs, staging, ino, id) == StagedWith(named, ino, id, map[]);
    SnapshotRuns(w, id, named, ino, [Proceed] + ([Proceed] + Publishing()));
    ChecksumRuns(w, id, named, ino, Publishing());
    PublishingRuns(w, id, built, ino);
    assert (built.names - {staging})[w.destination := ino] == w.fs.names[w.destination := ino];
    assert Rename(built, staging, w.destination) == WithBundle(w.fs, w.destination, ino, id, w.installers[id].canonical);
  }
}
