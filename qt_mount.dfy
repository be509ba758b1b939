/**
 * The mount lifecycle of the Qt player: `FileListWidget` holds at most one
 * btfs mount in its `mountpoint` field, replaces it when another torrent is
 * opened, and drops it when the main window closes. Unlike the curses player,
 * it removes the mount directory only when the unmount succeeded.
 */
module QtMount {
  import opened Wrappers
  import opened Paths
  import opened Actions

  /** The actions `unmount_torrent` takes for the mount directory `mountpoint`. */
  function Release(mountpoint: Option<Path>, unmount: CommandResult): (r: seq<Action>)
    ensures mountpoint.Some? ==> |r| >= 1 && r[0] == Unmount(mountpoint.value)
    ensures mountpoint.Some? ==> (RemoveDir(mountpoint.value) in r <==> unmount.ExitZero?)
    ensures mountpoint.None? ==> r == []
  {
    if mountpoint.None? then []
    else [Unmount(mountpoint.value)] + (if unmount.ExitZero? then [RemoveDir(mountpoint.value)] else [])
  }

  /** The actions of a mount attempt in the new directory `dir`, up to listing its content. */
  function Attempt(torrentFile: Path, dir: Path, mount: CommandResult, isMount: bool): seq<Action>
  {
    [MakeMountDir(dir), RunMount(torrentFile, dir)]
      + (if mount.ExitZero? then [CheckMount(dir)] + (if isMount then [LoadContent(dir)] else []) else [])
  }

  class FileListWidget {
    /** `self.mountpoint`: the mount directory in use, or `None`. */
    var mountpoint: Option<Path>
    /** The external actions taken so far, in order. */
    var log: seq<Action>

    /** The mount directories awaiting an unmount are exactly the one in `mountpoint`. */
    predicate Valid()
      reads this
    {
      Outstanding(log) == (if mountpoint.Some? then {mountpoint.value} else {})
    }

    constructor ()
      ensures Valid() && mountpoint == None && log == []
    {
      mountpoint := None;
      log := [];
    }

    /**
     * `unmount_torrent`: nothing without a mount; otherwise fusermount, then
     * rmtree only if fusermount succeeded, and `mountpoint` is `None` whatever
     * happened.
     */
    method UnmountTorrent(unmount: CommandResult)
      requires Valid()
      modifies this
      ensures Valid() && mountpoint == None
      ensures log == old(log) + Release(old(mountpoint), unmount)
    {
      if mountpoint.Some? {
        var mp := mountpoint.value;
        OutstandingSnoc(log, Unmount(mp));
        log := log + [Unmount(mp)];
        if unmount.ExitZero? {
          OutstandingSnoc(log, RemoveDir(mp));
          log := log + [RemoveDir(mp)];
        }
        mountpoint := None;
      }
    }

    /**
     * `mount_and_list_torrent`: unmount any previous torrent, make a new
     * mount directory `newDir`, mount `torrentFile` there and, once it is a
     * mount, list its contents. Any failure unmounts it again.
     */
    method MountAndListTorrent(torrentFile: Path, newDir: Path, mount: CommandResult, isMount: bool,
                               unmountPrevious: CommandResult, unmountNew: CommandResult)
      requires Valid()
      modifies this
      ensures Valid()
      ensures mount.ExitZero? && isMount <==> mountpoint == Some(newDir)
      ensures !(mount.ExitZero? && isMount) ==> mountpoint == None
      ensures log == old(log) + Release(old(mountpoint), unmountPrevious)
                     + Attempt(torrentFile, newDir, mount, isMount)
                     + (if mount.ExitZero? && isMount then [] else Release(Some(newDir), unmountNew))
    {
      if mountpoint.Some? {
        UnmountTorrent(unmountPrevious);
      }
      ghost var released := log;
      assert released == old(log) + Release(old(mountpoint), unmountPrevious);
      assert Outstanding(released) == {};
      OutstandingSnoc(log, MakeMountDir(newDir));
      log := log + [MakeMountDir(newDir)];
      mountpoint := Some(newDir);
      OutstandingSnoc(log, RunMount(torrentFile, newDir));
      log := log + [RunMount(torrentFile, newDir)];
      var failed := !mount.ExitZero?;
      if !failed {
        OutstandingSnoc(log, CheckMount(newDir));
        log := log + [CheckMount(newDir)];
        if !isMount {
          failed := true;
        } else {
          OutstandingSnoc(log, LoadContent(newDir));
          log := log + [LoadContent(newDir)];
        }
      }
      ghost var attempted := log;
      assert attempted == released + Attempt(torrentFile, newDir, mount, isMount);
      if failed {
        UnmountTorrent(unmountNew);
        assert log == attempted + Release(Some(newDir), unmountNew);
      } else {
        assert log == attempted + [];
      }
    }
  }

  /** The main window, whose `closeEvent` unmounts the file list's torrent. */
  class MainWindow {
    const fileList: FileListWidget

    constructor ()
      ensures fresh(fileList) && fileList.Valid() && fileList.mountpoint == None && fileList.log == []
    {
      fileList := new FileListWidget();
    }

    /**
     * `closeEvent`: the widget forgets its mount, and every mount directory it
     * made has had an unmount attempted (a failed fusermount leaves the mount in place).
     */
    method CloseEvent(unmount: CommandResult)
      requires fileList.Valid()
      modifies fileList
      ensures fileList.Valid() && fileList.mountpoint == None && Outstanding(fileList.log) == {}
      ensures fileList.log == old(fileList.log) + Release(old(fileList.mountpoint), unmount)
    {
      fileList.UnmountTorrent(unmount);
    }
  }

  /**
   * Opening two torrents in a row and closing the window: the first mount is
   * released before the second is made, and at the end an unmount was attempted
   * for both mount directories, even when every unmount fails (the mounts then stay).
   */
  method OpenTwoThenClose(first: Path, second: Path, dirA: Path, dirB: Path) returns (log: seq<Action>)
    ensures Outstanding(log) == {}
    ensures |log| == 10
    ensures log[4] == Unmount(dirA) && log[9] == Unmount(dirB)
  {
    var window := new MainWindow();
    window.fileList.MountAndListTorrent(first, dirA, ExitZero, true, ExitZero, ExitZero);
    assert |window.fileList.log| == 4 && window.fileList.mountpoint == Some(dirA);
    window.fileList.MountAndListTorrent(second, dirB, ExitZero, true,
                                        ExitNonZero("device busy"), ExitZero);
    assert Release(Some(dirA), ExitNonZero("device busy")) == [Unmount(dirA)];
    assert window.fileList.log[4] == Unmount(dirA) && |window.fileList.log| == 9;
    window.CloseEvent(ExitNonZero("device busy"));
    assert window.fileList.log[9] == Unmount(dirB) && window.fileList.log[4] == Unmount(dirA);
    log := window.fileList.log;
  }
}
