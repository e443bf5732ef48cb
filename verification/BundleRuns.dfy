/** What one installer does alone, for every answer of the system: the schedule it is, and where it ends. */
module BundleRuns {
  import opened BundleInstall
  import opened BundleSafety

  /** How the exclusive write of one file came back; a failed fill may or may not remove the name again. */
  datatype WriteReply = Written | NotCreated | NotFilled(unlinked: bool)

  /** How the rename call came back. */
  datatype RenameReply = Renamed | Refused | RenamedButReportedFailure

  /** One answer for every call from opening the staging directory to the final validation. */
  datatype Replies = Replies(
    opens: bool, named: bool, snapshot: WriteReply, checksum: WriteReply, rechecked: bool, rename: RenameReply, validated: bool)

  function FileEvents(r: WriteReply, rest: seq<Event>): seq<Event> {
    match r
    case Written => [Proceed] + ([Proceed] + rest)
    case NotCreated => [Fail(false)] + Cleanup([])
    case NotFilled(unlinked) => [Proceed] + ([Fail(unlinked)] + Cleanup([]))
  }

  function RenameEvents(ino: Inode, a: Replies): seq<Event> {
    match a.rename
    case Renamed => [Proceed] + ([if a.validated then Proceed else Fail(false)] + [])
    case Refused => [Fail(false)] + Cleanup([])
    case RenamedButReportedFailure => [CommitThenFail(ino)] + Cleanup([])
  }

  function PublishEvents(ino: Inode, a: Replies): seq<Event> {
    if !a.rechecked then [Fail(false)] + Cleanup([]) else [Proceed] + RenameEvents(ino, a)
  }

  function NamedEvents(ino: Inode, a: Replies): seq<Event> {
    if !a.named then [Fail(false)] + Cleanup([])
    else [Proceed] + FileEvents(a.snapshot, FileEvents(a.checksum, PublishEvents(ino, a)))
  }

  function StagedEvents(ino: Inode, a: Replies): seq<Event> {
    if !a.opens then [Fail(false)] + [] else [Proceed] + NamedEvents(ino, a)
  }

  /** The installer's own schedule for these answers. */
  function InstallEvents(ino: Inode, a: Replies): seq<Event> { [Proceed] + ([Allocate(ino)] + StagedEvents(ino, a)) }

  predicate Blocked(fs: FileSystem, destination: string, token: string) {
    destination in fs.names || StagingName(destination, token) in fs.names
  }

  /** The rename committed, whatever was reported. */
  predicate Commits(a: Replies) {
    a.opens && a.named && a.snapshot.Written? && a.checksum.Written? && a.rechecked && !a.rename.Refused?
  }

  predicate Succeeds(a: Replies) { Commits(a) && a.rename.Renamed? && a.validated }

  /** Where it ends: a staging directory that could not be opened stays behind empty; any other failure leaves no trace. */
  function InstallOutcome(fs: FileSystem, destination: string, token: string, canonical: string, id: nat, ino: Inode, a: Replies):
    (FileSystem, Phase)
  {
    if Blocked(fs, destination, token) then (fs, Failed)
    else if !a.opens then (MakeDirectory(fs, StagingName(destination, token), ino, id), Failed)
    else if !Commits(a) then (fs, Failed)
    else (WithBundle(fs, destination, ino, id, canonical), if Succeeds(a) then Returned(Checksum(canonical)) else Failed)
  }

  /** A failure on the way is followed by a cleanup that restores the parent as it was. */
  lemma FailureCleansUp(w: World, id: nat, named: FileSystem, ino: Inode, files: map<FileName, Content>, p: Phase,
                        e: Event, after: map<FileName, Content>)
    requires id < |w.installers| && ino !in w.fs.dirs
    requires StagingName(w.destination, w.installers[id].token) !in w.fs.names
    requires named == FileSystem(w.fs.names[StagingName(w.destination, w.installers[id].token) := ino], w.fs.dirs)
    requires after.Keys <= {SnapshotFile, ChecksumFile}
    requires Step(w.destination, StagedWith(named, ino, id, files), w.installers[id].(phase := p), id, e)
          == (StagedWith(named, ino, id, after), CleanupOpening(ino))
    ensures Run(At(w, id, StagedWith(named, ino, id, files), p), Tagged(id, [e] + Cleanup([]))) == At(w, id, w.fs, Failed)
  {
    var staging := StagingName(w.destination, w.installers[id].token);
    var staged := StagedWith(named, ino, id, after);
    RunFirst(w, id, StagedWith(named, ino, id, files), p, e, Cleanup([]), staged, CleanupOpening(ino));
    CleanupLeavesNoTrace(w, id, staged, ino);
    assert staged.names - {staging} == w.fs.names;
    assert staged.dirs - {ino} == w.fs.dirs;
  }

  lemma SnapshotReplies(w: World, id: nat, named: FileSystem, ino: Inode, r: WriteReply, rest: seq<Event>)
    requires id < |w.installers| && ino !in w.fs.dirs
    requires StagingName(w.destination, w.installers[id].token) !in w.fs.names
    requires named == FileSystem(w.fs.names[StagingName(w.destination, w.installers[id].token) := ino], w.fs.dirs)
    ensures Run(At(w, id, StagedWith(named, ino, id, map[]), CreatingSnapshot(ino)), Tagged(id, FileEvents(r, rest)))
         == if r.Written?
            then Run(At(w, id, StagedWith(named, ino, id, map[SnapshotFile := Snapshot(w.installers[id].canonical)]),
                        CreatingChecksum(ino)), Tagged(id, rest))
            else At(w, id, w.fs, Failed)
  {
    match r {
      case Written => SnapshotRuns(w, id, named, ino, rest);
      case NotCreated => FailureCleansUp(w, id, named, ino, map[], CreatingSnapshot(ino), Fail(false), map[]);
      case NotFilled(unlinked) =>
        var torn := map[SnapshotFile := Torn];
        SetStaged(named, ino, id, map[], SnapshotFile, Torn);
        RunFirst(w, id, StagedWith(named, ino, id, map[]), CreatingSnapshot(ino), Proceed, [Fail(unlinked)] + Cleanup([]),
                 StagedWith(named, ino, id, torn), FillingSnapshot(ino));
        UnlinkStaged(named, ino, id, torn, SnapshotFile);
        FailureCleansUp(w, id, named, ino, torn, FillingSnapshot(ino), Fail(unlinked),
                        if unlinked then torn - {SnapshotFile} else torn);
    }
  }

  lemma ChecksumReplies(w: World, id: nat, named: FileSystem, ino: Inode, r: WriteReply, rest: seq<Event>)
    requires id < |w.installers| && ino !in w.fs.dirs
    requires StagingName(w.destination, w.installers[id].token) !in w.fs.names
    requires named == FileSystem(w.fs.names[StagingName(w.destination, w.installers[id].token) := ino], w.fs.dirs)
    ensures var one := map[SnapshotFile := Snapshot(w.installers[id].canonical)];
      Run(At(w, id, StagedWith(named, ino, id, one), CreatingChecksum(ino)), Tagged(id, FileEvents(r, rest)))
      == if r.Written?
         then Run(At(w, id, StagedWith(named, ino, id, Bundle(w.installers[id].canonical)), Rechecking(ino)), Tagged(id, rest))
         else At(w, id, w.fs, Failed)
  {
    var one := map[SnapshotFile := Snapshot(w.installers[id].canonical)];
    match r {
      case Written => ChecksumRuns(w, id, named, ino, rest);
      case NotCreated => FailureCleansUp(w, id, named, ino, one, CreatingChecksum(ino), Fail(false), one);
      case NotFilled(unlinked) =>
        var torn := one[ChecksumFile := Torn];
        SetStaged(named, ino, id, one, ChecksumFile, Torn);
        RunFirst(w, id, StagedWith(named, ino, id, one), CreatingChecksum(ino), Proceed, [Fail(unlinked)] + Cleanup([]),
                 StagedWith(named, ino, id, torn), FillingChecksum(ino));
        UnlinkStaged(named, ino, id, torn, ChecksumFile);
        FailureCleansUp(w, id, named, ino, torn, FillingChecksum(ino), Fail(unlinked),
                        if unlinked then torn - {ChecksumFile} else torn);
    }
  }

  lemma UnlinkStaged(fs: FileSystem, ino: Inode, owner: nat, files: map<FileName, Content>, f: FileName)
    ensures Unlink(StagedWith(fs, ino, owner, files), ino, f) == StagedWith(fs, ino, owner, files - {f})
  {
    var a := StagedWith(fs, ino, owner, files);
    assert a.dirs[ino := Directory(owner, files - {f})] == fs.dirs[ino := Directory(owner, files - {f})];
  }

  lemma PublishedIs(fs: FileSystem, destination: string, token: string, canonical: string, id: nat, named: FileSystem, ino: Inode)
    requires !Blocked(fs, destination, token)
    requires named == FileSystem(fs.names[StagingName(destination, token) := ino], fs.dirs)
    ensures var built := StagedWith(named, ino, id, Bundle(canonical));
      StagingName(destination, token) in built.names
      && Rename(built, StagingName(destination, token), destination) == WithBundle(fs, destination, ino, id, canonical)
  {
    var built := StagedWith(named, ino, id, Bundle(canonical));
    assert (built.names - {StagingName(destination, token)})[destination := ino] == fs.names[destination := ino];
  }

  lemma RenameReplies(w: World, id: nat, named: FileSystem, ino: Inode, a: Replies)
    requires id < |w.installers| && ino !in w.fs.dirs && !Blocked(w.fs, w.destination, w.installers[id].token)
    requires named == FileSystem(w.fs.names[StagingName(w.destination, w.installers[id].token) := ino], w.fs.dirs)
    requires !a.rename.Refused?
    ensures var canonical := w.installers[id].canonical;
      Run(At(w, id, StagedWith(named, ino, id, Bundle(canonical)), Renaming(ino)), Tagged(id, RenameEvents(ino, a)))
      == At(w, id, WithBundle(w.fs, w.destination, ino, id, canonical),
            if a.rename.Renamed? && a.validated then Returned(Checksum(canonical)) else Failed)
  {
    var canonical := w.installers[id].canonical;
    var built := StagedWith(named, ino, id, Bundle(canonical));
    var done := WithBundle(w.fs, w.destination, ino, id, canonical);
    PublishedIs(w.fs, w.destination, w.installers[id].token, canonical, id, named, ino);
    if a.rename.Renamed? {
      var last := if a.validated then Proceed else Fail(false);
      RunFirst(w, id, built, Renaming(ino), Proceed, [last] + [], done, Validating);
      RunFirst(w, id, done, Validating, last, [], done, if a.validated then Returned(Checksum(canonical)) else Failed);
    } else {
      LostResponseKeepsBundle(w, id, built, ino);
    }
  }

  lemma PublishReplies(w: World, id: nat, named: FileSystem, ino: Inode, a: Replies)
    requires id < |w.installers| && ino !in w.fs.dirs && !Blocked(w.fs, w.destination, w.installers[id].token)
    requires named == FileSystem(w.fs.names[StagingName(w.destination, w.installers[id].token) := ino], w.fs.dirs)
    ensures var canonical := w.installers[id].canonical;
      Run(At(w, id, StagedWith(named, ino, id, Bundle(canonical)), Rechecking(ino)), Tagged(id, PublishEvents(ino, a)))
      == if !a.rechecked || a.rename.Refused? then At(w, id, w.fs, Failed)
         else At(w, id, WithBundle(w.fs, w.destination, ino, id, canonical),
                 if a.rename.Renamed? && a.validated then Returned(Checksum(canonical)) else Failed)
  {
    var canonical := w.installers[id].canonical;
    var built := StagedWith(named, ino, id, Bundle(canonical));
    if !a.rechecked {
      FailureCleansUp(w, id, named, ino, Bundle(canonical), Rechecking(ino), Fail(false), Bundle(canonical));
    } else {
      RunFirst(w, id, built, Rechecking(ino), Proceed, RenameEvents(ino, a), built, Renaming(ino));
      if a.rename.Refused? {
        FailureCleansUp(w, id, named, ino, Bundle(canonical), Renaming(ino), Fail(false), Bundle(canonical));
      } else {
        RenameReplies(w, id, named, ino, a);
      }
    }
  }

  lemma BlockedRuns(w: World, id: nat, ino: Inode, rest: seq<Event>)
    requires id < |w.installers| && Blocked(w.fs, w.destination, w.installers[id].token)
    ensures Run(At(w, id, w.fs, Probing), Tagged(id, [Proceed] + ([Allocate(ino)] + rest))) == At(w, id, w.fs, Failed)
  {
    var p := if w.destination in w.fs.names then Failed else Making;
    RunFirst(w, id, w.fs, Probing, Proceed, [Allocate(ino)] + rest, w.fs, p);
    if p == Making {
      RunFirst(w, id, w.fs, Making, Allocate(ino), rest, w.fs, Failed);
      StoppedStays(At(w, id, w.fs, Failed), id, Tagged(id, rest));
    } else {
      StoppedStays(At(w, id, w.fs, Failed), id, Tagged(id, [Allocate(ino)] + rest));
    }
  }

  /** One installer alone ends where the closed form says, for every answer of every call. */
  lemma InstallRuns(w: World, id: nat, ino: Inode, a: Replies)
    requires id < |w.installers| && ino !in w.fs.dirs
    ensures var inst := w.installers[id];
      var end := InstallOutcome(w.fs, w.destination, inst.token, inst.canonical, id, ino, a);
      Run(At(w, id, w.fs, Probing), Tagged(id, InstallEvents(ino, a))) == At(w, id, end.0, end.1)
  {
    hide Step;
    if Blocked(w.fs, w.destination, w.installers[id].token) {
      BlockedRuns(w, id, ino, StagedEvents(ino, a));
    } else {
      StagedRuns(w, id, ino, a);
    }
  }

  /** From the first file on, in a staging directory that was made, opened and checked. */
  lemma FilesRuns(w: World, id: nat, named: FileSystem, ino: Inode, a: Replies)
    requires id < |w.installers| && ino !in w.fs.dirs && !Blocked(w.fs, w.destination, w.installers[id].token)
    requires named == FileSystem(w.fs.names[StagingName(w.destination, w.installers[id].token) := ino], w.fs.dirs)
    requires a.opens && a.named
    ensures var inst := w.installers[id];
      var end := InstallOutcome(w.fs, w.destination, inst.token, inst.canonical, id, ino, a);
      Run(At(w, id, StagedWith(named, ino, id, map[]), CreatingSnapshot(ino)),
          Tagged(id, FileEvents(a.snapshot, FileEvents(a.checksum, PublishEvents(ino, a)))))
      == At(w, id, end.0, end.1)
  {
    hide Step, FileEvents, PublishEvents, Run, At, StagedWith, WithBundle, Tagged;
    SnapshotReplies(w, id, named, ino, a.snapshot, FileEvents(a.checksum, PublishEvents(ino, a)));
    ChecksumReplies(w, id, named, ino, a.checksum, PublishEvents(ino, a));
    PublishReplies(w, id, named, ino, a);
  }

  /** From a staging directory that was made and opened. */
  lemma NamedRuns(w: World, id: nat, named: FileSystem, ino: Inode, a: Replies)
    requires id < |w.installers| && ino !in w.fs.dirs && !Blocked(w.fs, w.destination, w.installers[id].token)
    requires named == FileSystem(w.fs.names[StagingName(w.destination, w.installers[id].token) := ino], w.fs.dirs)
    requires a.opens
    ensures var inst := w.installers[id];
      var end := InstallOutcome(w.fs, w.destination, inst.token, inst.canonical, id, ino, a);
      Run(At(w, id, StagedWith(named, ino, id, map[]), CheckingName(ino)), Tagged(id, NamedEvents(ino, a)))
      == At(w, id, end.0, end.1)
  {
    var made := StagedWith(named, ino, id, map[]);
    if a.named {
      var files := FileEvents(a.snapshot, FileEvents(a.checksum, PublishEvents(ino, a)));
      RunFirst(w, id, made, CheckingName(ino), Proceed, files, made, CreatingSnapshot(ino));
      FilesRuns(w, id, named, ino, a);
    } else {
      FailureCleansUp(w, id, named, ino, map[], CheckingName(ino), Fail(false), map[]);
    }
  }

  lemma StagedRuns(w: World, id: nat, ino: Inode, a: Replies)
    requires id < |w.installers| && ino !in w.fs.dirs && !Blocked(w.fs, w.destination, w.installers[id].token)
    ensures var inst := w.installers[id];
      var end := InstallOutcome(w.fs, w.destination, inst.token, inst.canonical, id, ino, a);
      Run(At(w, id, w.fs, Probing), Tagged(id, InstallEvents(ino, a))) == At(w, id, end.0, end.1)
  {
    hide Run, At, Tagged, NamedEvents;
    var staging := StagingName(w.destination, w.installers[id].token);
    var named := FileSystem(w.fs.names[staging := ino], w.fs.dirs);
    var made := MakeDirectory(w.fs, staging, ino, id);
    assert made == StagedWith(named, ino, id, map[]);
    MakingRuns(w, id, ino, StagedEvents(ino, a));
    if a.opens {
      RunFirst(w, id, made, Opening, Proceed, NamedEvents(ino, a), made, CheckingName(ino));
      NamedRuns(w, id, named, ino, a);
    } else {
      RunFirst(w, id, made, Opening, Fail(false), [], made, Failed);
      EndsThere(At(w, id, made, Failed), id);
    }
  }

  lemma EndsThere(w: World, id: nat)
    ensures Run(w, Tagged(id, [])) == w
  {}
}
