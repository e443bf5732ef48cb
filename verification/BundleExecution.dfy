/** One installation as the program runs it, on a parent directory nobody else touches meanwhile. */
module BundleExecution {
  import opened Optional
  import opened BundleInstall
  import opened BundleSafety
  import opened BundleRuns

  class ParentDirectory {
    const destination: string
    var fs: FileSystem

    constructor (destination: string)
      ensures this.destination == destination && fs == FileSystem(map[], map[])
    {
      this.destination := destination;
      fs := FileSystem(map[], map[]);
    }

    /** Removes the staging directory, but only while its name still leads to the inode this installer made. */
    method CleanupStagingIfUnpublished(staging: string, ino: Inode)
      modifies this
      ensures !Names(old(fs), staging, ino) ==> fs == old(fs)
      ensures Names(old(fs), staging, ino) && ino in old(fs).dirs && old(fs).dirs[ino].files.Keys <= {SnapshotFile, ChecksumFile} ==>
        fs == FileSystem(old(fs).names - {staging}, old(fs).dirs - {ino})
    {
      if staging !in fs.names || fs.names[staging] != ino {
        return;
      }
      fs := Unlink(fs, ino, SnapshotFile);
      fs := Unlink(fs, ino, ChecksumFile);
      if ino in fs.dirs && fs.dirs[ino].files == map[] {
        assert fs.dirs - {ino} == old(fs).dirs - {ino};
        fs := FileSystem(fs.names - {staging}, fs.dirs - {ino});
      }
    }

    /** Creates one file exclusively and fills it; when filling fails the name may be removed again. */
    method WritePrivateFile(ino: Inode, f: FileName, c: Content, reply: WriteReply) returns (ok: bool)
      requires ino in fs.dirs && f !in fs.dirs[ino].files
      modifies this
      ensures ok <==> reply.Written?
      ensures ok ==> fs == SetFile(old(fs), ino, f, c)
      ensures fs.names == old(fs).names && ino in fs.dirs && fs.dirs - {ino} == old(fs).dirs - {ino}
      ensures fs.dirs[ino].owner == old(fs).dirs[ino].owner
      ensures fs.dirs[ino].files.Keys <= old(fs).dirs[ino].files.Keys + {f}
    {
      if reply.NotCreated? {
        return false;
      }
      fs := SetFile(fs, ino, f, Torn);
      if reply.NotFilled? {
        if reply.unlinked {
          fs := Unlink(fs, ino, f);
        }
        assert fs.dirs - {ino} == old(fs).dirs - {ino};
        return false;
      }
      fs := SetFile(fs, ino, f, c);
      assert fs == SetFile(old(fs), ino, f, c) by {
        assert fs.dirs[ino].files == old(fs).dirs[ino].files[f := c];
        assert fs.dirs == old(fs).dirs[ino := Directory(old(fs).dirs[ino].owner, fs.dirs[ino].files)];
      }
      assert fs.dirs - {ino} == old(fs).dirs - {ino};
      return true;
    }

    /** Writes both files into the staging directory and checks that its name still leads there. */
    method StageBundle(staging: string, canonical: string, ino: Inode, a: Replies) returns (ok: bool)
      requires Names(fs, staging, ino) && ino in fs.dirs && fs.dirs[ino].files == map[]
      modifies this
      ensures ok <==> a.snapshot.Written? && a.checksum.Written? && a.rechecked
      ensures ok ==> fs == StagedWith(old(fs), ino, old(fs).dirs[ino].owner, Bundle(canonical))
      ensures fs.names == old(fs).names && ino in fs.dirs && fs.dirs - {ino} == old(fs).dirs - {ino}
      ensures fs.dirs[ino].files.Keys <= {SnapshotFile, ChecksumFile}
    {
      ok := WritePrivateFile(ino, SnapshotFile, Snapshot(canonical), a.snapshot);
      if !ok {
        return;
      }
      ok := WritePrivateFile(ino, ChecksumFile, Checksum(canonical), a.checksum);
      if !ok {
        return;
      }
      assert fs.dirs[ino].files == Bundle(canonical);
      ok := Names(fs, staging, ino) && a.rechecked;
    }

    /**
     Publishes one bundle or raises, whatever the system answers: the end is that of the installer's own schedule of
     the state machine, run alone from its first step.
     */
    method InstallSnapshotBundle(canonical: string, token: string, id: nat, ino: Inode, a: Replies, ghost w: World)
      returns (raised: bool, digest: Content)
      requires ino !in fs.dirs
      requires w.destination == destination && w.fs == fs
      requires id < |w.installers| && w.installers[id] == Installer(canonical, token, Probing)
      modifies this
      ensures raised <==> Blocked(old(fs), destination, token) || !Succeeds(a)
      ensures (fs, if raised then Failed else Returned(digest))
           == InstallOutcome(old(fs), destination, token, canonical, id, ino, a)
      ensures Run(w, Tagged(id, InstallEvents(ino, a))) == At(w, id, fs, if raised then Failed else Returned(digest))
      ensures !raised ==> digest == Checksum(canonical) && Installed(fs, destination) == Some(canonical)
    {
      hide Run, At, Tagged, InstallEvents, ValidBundle, Unlink;
      var staging := StagingName(destination, token);
      AsItStands(w, id);
      InstallRuns(w, id, ino, a);
      raised, digest := true, Torn;
      if destination in fs.names || staging in fs.names {
        return;
      }
      fs := MakeDirectory(fs, staging, ino, id);
      if !a.opens {
        return;
      }
      ghost var made := fs;
      var staged := false;
      if a.named && Names(fs, staging, ino) {
        staged := StageBundle(staging, canonical, ino, a);
      }
      if !staged || a.rename.Refused? {
        CleanupStagingIfUnpublished(staging, ino);
        assert made.names - {staging} == old(fs).names && made.dirs - {ino} == old(fs).dirs;
        return;
      }
      fs := Rename(fs, staging, destination);
      assert fs == WithBundle(old(fs), destination, ino, id, canonical) by {
        assert (made.names - {staging})[destination := ino] == old(fs).names[destination := ino];
        assert made.dirs[ino := Directory(id, Bundle(canonical))] == old(fs).dirs[ino := Directory(id, Bundle(canonical))];
      }
      if a.rename.RenamedButReportedFailure? {
        CleanupStagingIfUnpublished(staging, ino);
        return;
      }
      BundleIsValid(old(fs), destination, ino, id, canonical);
      var installed := Installed(fs, destination);
      if installed != Some(canonical) || !a.validated {
        return;
      }
      raised, digest := false, Checksum(canonical);
    }
  }

  lemma BundleIsValid(fs: FileSystem, destination: string, ino: Inode, id: nat, canonical: string)
    ensures Installed(WithBundle(fs, destination, ino, id, canonical), destination) == Some(canonical)
  {}

  lemma AsItStands(w: World, id: nat)
    requires id < |w.installers| && w.installers[id].phase == Probing
    ensures At(w, id, w.fs, Probing) == w
  {
    assert w.installers[id := w.installers[id].(phase := Probing)] == w.installers;
  }
}
