/**
 * `play_torrent` in the curses player: make a mount directory, mount the
 * torrent with btfs, browse it with two nested key loops, play at most one file,
 * and in a `finally` block unmount and remove the directory.
 */
module Session {
  import opened Paths
  import opened Keys
  import opened Actions
  import opened Navigator
  import opened Playback

  /** How browsing ends. */
  datatype Exit =
    | UserQuit                                 // 'q' at either prompt
    | NothingToPlay                            // nothing selectable at the mount root
    | Played(file: Entry, result: PlayResult)  // one playback attempt ends the session

  /** Where the two navigation loops stand between two key presses. */
  datatype Phase =
    | Listing(current: Path)                                      // outer loop, before "any key"
    | Choosing(current: Path, items: seq<Entry>, selected: int)   // inner loop over `all_items`
    | Finished(exit: Exit)

  predicate PhaseOk(ph: Phase)
  {
    ph.Choosing? ==> 0 <= ph.selected < |ph.items|
  }

  /** One key press in the navigation loops. */
  function Step(m: Mount, h: Players, ph: Phase, key: Key): (r: Phase)
    requires PhaseOk(ph)
    ensures PhaseOk(r)
  {
    match ph
    case Finished(_) => ph
    case Listing(current) =>
      if key == KeyQuit then Finished(UserQuit)
      else
        var items := Selectable(m, ListFiles(m, current));
        if items != [] then Choosing(current, items, 0)
        else if current != m.root then Listing(Dirname(current))
        else Finished(NothingToPlay)
    case Choosing(current, items, selected) =>
      if key == KeyDown then Choosing(current, items, MoveDown(selected, |items|))
      else if key == KeyUp then Choosing(current, items, MoveUp(selected, |items|))
      else if key == KeyEnter then
        var item := items[selected];
        if IsDir(m, item) then Listing(item.path)
        else Finished(Played(item, PlayVideoSpec(m, item, h)))
      else if key == KeyBackspace || key == KeyDelete then
        if current != m.root then Listing(Dirname(current)) else ph
      else if key == KeyQuit then Finished(UserQuit)
      else ph
  }

  /** The navigation loops over a sequence of key presses; they stop early once finished. */
  function Run(m: Mount, h: Players, ph: Phase, keys: seq<Key>): (r: Phase)
    requires PhaseOk(ph)
    ensures PhaseOk(r)
    decreases |keys|
  {
    if keys == [] || ph.Finished? then ph
    else Run(m, h, Step(m, h, ph, keys[0]), keys[1..])
  }

  /**
   * The navigation invariant: the current directory is the mount point or below
   * it, the selection list is the filtered listing of the current directory, the
   * selection is inside it, and a played file is a video below the mount point.
   */
  predicate Inside(m: Mount, h: Players, ph: Phase)
  {
    match ph
    case Listing(current) => Within(m.root, current)
    case Choosing(current, items, selected) =>
      Within(m.root, current) && items == Selectable(m, ListFiles(m, current))
      && 0 <= selected < |items|
    case Finished(exit) =>
      exit.Played? ==>
        exit.file.Item? && Within(m.root, exit.file.path) && exit.file.path != m.root
        && IsVideo(exit.file) && !IsDir(m, exit.file)
        && exit.result == PlayVideoSpec(m, exit.file, h)
  }

  lemma StepInside(m: Mount, h: Players, ph: Phase, key: Key)
    requires Inside(m, h, ph)
    ensures PhaseOk(ph) && Inside(m, h, Step(m, h, ph, key))
  {
    match ph
    case Finished(_) =>
    case Listing(current) =>
      if current != m.root { DirnameStaysWithin(m.root, current); }
    case Choosing(current, items, selected) =>
      ChoosingInside(m, h, current, items, selected, key);
  }

  lemma ChoosingInside(m: Mount, h: Players, current: Path, items: seq<Entry>, selected: int, key: Key)
    requires Inside(m, h, Choosing(current, items, selected))
    ensures Inside(m, h, Step(m, h, Choosing(current, items, selected), key))
  {
    var ph := Choosing(current, items, selected);
    if key == KeyDown {
      assert Step(m, h, ph, key) == Choosing(current, items, MoveDown(selected, |items|));
    } else if key == KeyUp {
      assert Step(m, h, ph, key) == Choosing(current, items, MoveUp(selected, |items|));
    } else if key == KeyEnter {
      EnterInside(m, h, current, items, selected);
    } else if key == KeyBackspace || key == KeyDelete {
      if current != m.root {
        assert Step(m, h, ph, key) == Listing(Dirname(current));
        DirnameStaysWithin(m.root, current);
      } else {
        assert Step(m, h, ph, key) == ph;
      }
    } else if key == KeyQuit {
      assert Step(m, h, ph, key) == Finished(UserQuit);
    } else {
      assert Step(m, h, ph, key) == ph;
    }
  }

  lemma EnterInside(m: Mount, h: Players, current: Path, items: seq<Entry>, selected: int)
    requires Inside(m, h, Choosing(current, items, selected))
    ensures Inside(m, h, Step(m, h, Choosing(current, items, selected), KeyEnter))
  {
    var item := items[selected];
    assert item in Selectable(m, ListFiles(m, current));
    SelectableAreChildren(m, current);
    EnterChild(m, h, current, items, selected);
  }

  /** Enter on a selectable child of a directory within the mount. */
  lemma EnterChild(m: Mount, h: Players, current: Path, items: seq<Entry>, selected: int)
    requires Within(m.root, current) && 0 <= selected < |items|
    requires ChildOf(current, items[selected])
    requires IsDir(m, items[selected]) || IsVideo(items[selected])
    ensures Inside(m, h, Step(m, h, Choosing(current, items, selected), KeyEnter))
  {
    var item := items[selected];
    assert item.path == Join(current, item.path[|item.path| - 1]);
    assert Within(m.root, item.path);
  }

  /** `current_dir` never leaves the mount point, whatever keys are pressed. */
  lemma {:induction false} RunInside(m: Mount, h: Players, ph: Phase, keys: seq<Key>)
    requires Inside(m, h, ph)
    ensures PhaseOk(ph) && Inside(m, h, Run(m, h, ph, keys))
    decreases |keys|
  {
    if keys != [] && !ph.Finished? {
      StepInside(m, h, ph, keys[0]);
      RunInside(m, h, Step(m, h, ph, keys[0]), keys[1..]);
    }
  }

  /** At the mount root, backspace and delete leave the selection loop as it is. */
  lemma BackspaceAtRoot(m: Mount, h: Players, items: seq<Entry>, selected: int, key: Key)
    requires 0 <= selected < |items|
    requires key == KeyBackspace || key == KeyDelete
    ensures Step(m, h, Choosing(m.root, items, selected), key) == Choosing(m.root, items, selected)
  {
  }

  /** Below the root, backspace goes to the parent, which is still within the mount. */
  lemma BackspaceBelowRoot(m: Mount, h: Players, current: Path, items: seq<Entry>, selected: int, key: Key)
    requires Within(m.root, current) && current != m.root
    requires 0 <= selected < |items|
    requires key == KeyBackspace || key == KeyDelete
    ensures Step(m, h, Choosing(current, items, selected), key) == Listing(Dirname(current))
    ensures Within(m.root, Dirname(current)) && |Dirname(current)| == |current| - 1
  {
    DirnameStaysWithin(m.root, current);
  }

  /** An empty selection list climbs one level, or ends the session at the root. */
  lemma NothingSelectable(m: Mount, h: Players, current: Path, key: Key)
    requires key != KeyQuit
    requires Selectable(m, ListFiles(m, current)) == []
    ensures current == m.root ==> Step(m, h, Listing(current), key) == Finished(NothingToPlay)
    ensures current != m.root ==> Step(m, h, Listing(current), key) == Listing(Dirname(current))
  {
  }

  /** Enter on a directory descends into that child of the current directory. */
  lemma EnterDescends(m: Mount, h: Players, current: Path, items: seq<Entry>, selected: int)
    requires items == Selectable(m, ListFiles(m, current))
    requires 0 <= selected < |items| && IsDir(m, items[selected])
    ensures
      var next := Step(m, h, Choosing(current, items, selected), KeyEnter);
      next.Listing? && next.current != [] && Dirname(next.current) == current
      && Lookup(m, next.current).Some? && Lookup(m, next.current).value.Dir?
  {
    var item := items[selected];
    assert Step(m, h, Choosing(current, items, selected), KeyEnter) == Listing(item.path);
    SelectableAreChildren(m, current);
    assert item in items;
  }

  // ----- the session and its external actions -----

  /** Answers of the environment: the torrents directory, and the commands' outcomes. */
  datatype Host = Host(
    library: set<string>,      // file names in the torrents directory
    mount: CommandResult,      // btfs
    isMount: bool,             // os.path.ismount after btfs
    unmount: CommandResult,    // fusermount -u
    players: Players)

  datatype Why =
    | MountError(report: string)  // btfs exited non-zero
    | MountCommandMissing         // btfs could not be started
    | NotMounted                  // btfs exited 0 but the directory is not a mount
    | Browsed(exit: Exit)

  datatype End =
    | TorrentMissing              // nothing created
    | AwaitingKey(at: Phase)      // blocked in getch: the finally block has not run yet
    | Closed(why: Why, raised: bool)  // cleanup has run; `raised`: an exception left play_torrent

  /** `os.path.join(TORRENTS_DIR, f"{torrent_name}.torrent")`. */
  function TorrentFile(torrentsDir: Path, name: string): Path
  {
    Join(torrentsDir, name + ".torrent")
  }

  /** The players run for one playback attempt. */
  function PlayerRuns(file: Entry, result: PlayResult): (r: seq<Action>)
    ensures forall a :: a in r ==> a.RunPlayer?
  {
    if result.PlayedBy? || result.NoPlayer? then
      seq(|result.tried|, i requires 0 <= i < |result.tried| => RunPlayer(result.tried[i], Text(file)))
    else []
  }

  function ExitActions(exit: Exit): (r: seq<Action>)
    ensures forall a :: a in r ==> a.RunPlayer?
  {
    if exit.Played? then PlayerRuns(exit.file, exit.result) else []
  }

  /**
   * The `finally` block: always try fusermount, then rmtree. Only
   * `CalledProcessError` is caught around fusermount, so a missing fusermount
   * raises out of the block before rmtree.
   */
  function Cleanup(mountpoint: Path, unmount: CommandResult): (r: (seq<Action>, bool))
    ensures r.0 != [] && r.0[0] == Unmount(mountpoint) && Unmounts(r.0) == 1
    ensures RemoveDir(mountpoint) in r.0 <==> !unmount.NotInstalled?
    ensures r.1 <==> unmount.NotInstalled?
  {
    if unmount.NotInstalled? then ([Unmount(mountpoint)], true)
    else ([Unmount(mountpoint), RemoveDir(mountpoint)], false)
  }

  /** How the `try` block of `play_torrent` ends. */
  datatype TryEnd =
    | Blocked(at: Phase)            // waiting in getch
    | Left(why: Why, raised: bool)  // the block is left; `raised`: by an exception

  /** The navigation loops of a session whose mount succeeded. */
  function Browsing(mountpoint: Path, tree: Node, host: Host, keys: seq<Key>): Phase
  {
    Run(Mount(mountpoint, tree), host.players, Listing(mountpoint), keys)
  }

  /**
   * The actions of the `try` block: btfs, the mount check, then the players
   * run; `ph` is where the navigation loops stand or how they ended.
   */
  function TryActions(torrentFile: Path, mountpoint: Path, host: Host, ph: Phase): seq<Action>
  {
    [RunMount(torrentFile, mountpoint)]
      + (if !host.mount.ExitZero? then []
         else [CheckMount(mountpoint)] + (if host.isMount && ph.Finished? then ExitActions(ph.exit) else []))
  }

  function TryOutcome(host: Host, ph: Phase): TryEnd
  {
    match host.mount
    case NotInstalled => Left(MountCommandMissing, true)
    case ExitNonZero(report) => Left(MountError(report), false)
    case ExitZero =>
      if !host.isMount then Left(NotMounted, false)
      else if ph.Finished? then Left(Browsed(ph.exit), false)
      else Blocked(ph)
  }

  /** `play_torrent` as a function of the environment's answers and the keys pressed. */
  function SessionSpec(torrentsDir: Path, name: string, mountpoint: Path, tree: Node,
                       host: Host, keys: seq<Key>): (r: (seq<Action>, End))
    ensures r.1.TorrentMissing? <==> name + ".torrent" !in host.library
    ensures r.0 == [] <==> r.1.TorrentMissing?
    ensures r.0 != [] ==> r.0[0] == MakeMountDir(mountpoint)
  {
    if name + ".torrent" !in host.library then ([], TorrentMissing)
    else SessionAfter(TorrentFile(torrentsDir, name), mountpoint, host, Browsing(mountpoint, tree, host, keys))
  }

  /**
   * `play_torrent` once the torrent file is found: mkdtemp, the `try` block with
   * the navigation loops at `ph`, then the `finally` block unless they are blocked.
   */
  function SessionAfter(torrentFile: Path, mountpoint: Path, host: Host, ph: Phase): (r: (seq<Action>, End))
    ensures r.0 != [] && r.0[0] == MakeMountDir(mountpoint) && !r.1.TorrentMissing?
  {
    var body := [MakeMountDir(mountpoint)] + TryActions(torrentFile, mountpoint, host, ph);
    match TryOutcome(host, ph)
    case Blocked(at) => (body, AwaitingKey(at))
    case Left(why, raised) =>
      var (cleanup, cleanupRaised) := Cleanup(mountpoint, host.unmount);
      (body + cleanup, Closed(why, raised || cleanupRaised))
  }

  /** One key of `keys`, consumed from position `i`. */
  lemma RunOneKey(m: Mount, h: Players, ph: Phase, keys: seq<Key>, i: int)
    requires PhaseOk(ph) && !ph.Finished? && 0 <= i < |keys|
    ensures Run(m, h, ph, keys[i..]) == Run(m, h, Step(m, h, ph, keys[i]), keys[i + 1..])
  {
    assert keys[i..][0] == keys[i] && keys[i..][1..] == keys[i + 1..];
  }

  /**
   * The inner loop of `play_torrent` over `all_items`, from key `i0`. It ends
   * with a new directory to list, a finished session, or the keys used up.
   */
  method Choose(m: Mount, h: Players, current: Path, allItems: seq<Entry>, keys: seq<Key>, i0: int)
    returns (next: Phase, i: int)
    requires Within(m.root, current) && 0 <= i0 <= |keys|
    requires forall e :: e in allItems ==> ChildOf(current, e)
    requires allItems != []
    ensures i0 <= i <= |keys| && PhaseOk(next)
    ensures Run(m, h, next, keys[i..]) == Run(m, h, Choosing(current, allItems, 0), keys[i0..])
    ensures next.Listing? ==> Within(m.root, next.current) && i > i0
    ensures next.Choosing? ==> i == |keys|
  {
    var selected := 0;
    i := i0;
    while i < |keys|
      invariant i0 <= i <= |keys| && 0 <= selected < |allItems|
      invariant Run(m, h, Choosing(current, allItems, selected), keys[i..])
             == Run(m, h, Choosing(current, allItems, 0), keys[i0..])
      decreases |keys| - i
    {
      var key := keys[i];
      RunOneKey(m, h, Choosing(current, allItems, selected), keys, i);
      ghost var stepped := Step(m, h, Choosing(current, allItems, selected), key);
      i := i + 1;
      if key == KeyDown {
        selected := (selected + 1) % |allItems|;
        assert stepped == Choosing(current, allItems, selected);
      } else if key == KeyUp {
        selected := (selected - 1) % |allItems|;
        assert stepped == Choosing(current, allItems, selected);
      } else if key == KeyEnter {
        var item := allItems[selected];
        if IsDir(m, item) {
          assert item in allItems;
          assert item.path == Join(current, item.path[|item.path| - 1]);
          assert stepped == Listing(item.path);
          return Listing(item.path), i;
        } else {
          assert stepped == Finished(Played(item, PlayVideoSpec(m, item, h)));
          assert Run(m, h, stepped, keys[i..]) == stepped;
          var result := PlayVideo(m, item, h);
          return Finished(Played(item, result)), i;
        }
      } else if key == KeyBackspace || key == KeyDelete {
        if current != m.root {
          DirnameStaysWithin(m.root, current);
          assert stepped == Listing(Dirname(current));
          return Listing(Dirname(current)), i;
        }
        assert stepped == Choosing(current, allItems, selected);
      } else if key == KeyQuit {
        assert stepped == Finished(UserQuit);
        return Finished(UserQuit), i;
      } else {
        assert stepped == Choosing(current, allItems, selected);
      }
    }
    next := Choosing(current, allItems, selected);
  }

  /** The two navigation loops of `play_torrent`, from the mount root. */
  method Browse(m: Mount, h: Players, keys: seq<Key>) returns (ph: Phase)
    ensures PhaseOk(ph) && ph == Run(m, h, Listing(m.root), keys)
  {
    var current := m.root;
    var i := 0;
    while i < |keys|
      invariant 0 <= i <= |keys|
      invariant Within(m.root, current)
      invariant Run(m, h, Listing(current), keys[i..]) == Run(m, h, Listing(m.root), keys)
      decreases |keys| - i
    {
      var key := keys[i];
      RunOneKey(m, h, Listing(current), keys, i);
      i := i + 1;
      if key == KeyQuit {
        return Finished(UserQuit);
      }
      var files := ListFiles(m, current);
      var allItems := Directories(m, files) + Videos(files);
      if |allItems| == 0 {
        if current != m.root {
          DirnameStaysWithin(m.root, current);
          current := Dirname(current);
        } else {
          return Finished(NothingToPlay);
        }
      } else {
        SelectableAreChildren(m, current);
        var next;
        next, i := Choose(m, h, current, allItems, keys, i);
        if !next.Listing? {
          return next;
        }
        current := next.current;
      }
    }
    ph := Listing(current);
  }

  /** The `try` block of `play_torrent`: btfs, the mount check, then the navigation loops. */
  method TryBlock(torrentFile: Path, mountpoint: Path, tree: Node, host: Host, keys: seq<Key>)
    returns (attempted: seq<Action>, outcome: TryEnd)
    ensures attempted == TryActions(torrentFile, mountpoint, host, Browsing(mountpoint, tree, host, keys))
    ensures outcome == TryOutcome(host, Browsing(mountpoint, tree, host, keys))
  {
    match host.mount {
      case NotInstalled =>
        return [RunMount(torrentFile, mountpoint)], Left(MountCommandMissing, true);
      case ExitNonZero(report) =>
        return [RunMount(torrentFile, mountpoint)], Left(MountError(report), false);
      case ExitZero =>
        if !host.isMount {
          return [RunMount(torrentFile, mountpoint), CheckMount(mountpoint)], Left(NotMounted, false);
        }
        var ph := Browse(Mount(mountpoint, tree), host.players, keys);
        attempted, outcome := Mounted(torrentFile, mountpoint, host, ph);
    }
  }

  /** The rest of the `try` block once btfs has mounted the torrent and the loops reached `ph`. */
  method Mounted(torrentFile: Path, mountpoint: Path, host: Host, ph: Phase)
    returns (attempted: seq<Action>, outcome: TryEnd)
    requires host.mount.ExitZero? && host.isMount
    ensures attempted == TryActions(torrentFile, mountpoint, host, ph)
    ensures outcome == TryOutcome(host, ph)
  {
    attempted := [RunMount(torrentFile, mountpoint), CheckMount(mountpoint)];
    if ph.Finished? {
      attempted := attempted + ExitActions(ph.exit);
      outcome := Left(Browsed(ph.exit), false);
    } else {
      outcome := Blocked(ph);
    }
  }

  /** `play_torrent`: returns the actions attempted, in order, and how the session ended. */
  method PlayTorrent(torrentsDir: Path, name: string, mountpoint: Path, tree: Node,
                     host: Host, keys: seq<Key>) returns (trace: seq<Action>, end: End)
    ensures trace == SessionSpec(torrentsDir, name, mountpoint, tree, host, keys).0
    ensures end == SessionSpec(torrentsDir, name, mountpoint, tree, host, keys).1
  {
    var torrentFile := TorrentFile(torrentsDir, name);
    if name + ".torrent" !in host.library {
      return [], TorrentMissing;
    }
    trace := [MakeMountDir(mountpoint)];
    // try:
    var attempted, outcome := TryBlock(torrentFile, mountpoint, tree, host, keys);
    trace := trace + attempted;
    match outcome {
      case Blocked(at) =>
        end := AwaitingKey(at);
      case Left(why, raised) =>
        // finally:
        var cleanup := [Unmount(mountpoint)];
        var cleanupRaised := false;
        if host.unmount.NotInstalled? {
          cleanupRaised := true;
        } else {
          cleanup := cleanup + [RemoveDir(mountpoint)];
        }
        assert cleanup == Cleanup(mountpoint, host.unmount).0;
        assert cleanupRaised == Cleanup(mountpoint, host.unmount).1;
        trace := trace + cleanup;
        end := Closed(why, raised || cleanupRaised);
    }
  }

  // ----- what the session promises -----

  /** Actions other than making and unmounting a mount directory leave the held set alone. */
  lemma {:induction false} TrackQuiet(held: set<Path>, log: seq<Action>)
    requires forall a :: a in log ==> !a.MakeMountDir? && !a.Unmount?
    ensures Track(held, log) == held
    decreases log
  {
    if log != [] {
      assert log[0] in log;
      forall a | a in log[1..] ensures !a.MakeMountDir? && !a.Unmount? {
        assert a in log;
      }
      TrackQuiet(held, log[1..]);
    }
  }

  /** A torrent file that is not in the library is reported and nothing else happens. */
  lemma MissingTorrent(torrentsDir: Path, name: string, mountpoint: Path, tree: Node,
                       host: Host, keys: seq<Key>)
    requires name + ".torrent" !in host.library
    ensures SessionSpec(torrentsDir, name, mountpoint, tree, host, keys) == ([], TorrentMissing)
  {
  }

  /**
   * Once the torrent exists, the session makes the mount directory and runs btfs
   * first. If it ends, the `finally` block has attempted exactly one unmount, as
   * the last or next-to-last action, so no mount directory is left awaiting one;
   * rmtree follows unless fusermount is missing. Blocked in a key prompt, the
   * mount directory still awaits its unmount.
   */
  lemma SessionCleansUp(torrentsDir: Path, name: string, mountpoint: Path, tree: Node,
                        host: Host, keys: seq<Key>)
    requires name + ".torrent" in host.library
    ensures
      var (trace, end) := SessionSpec(torrentsDir, name, mountpoint, tree, host, keys);
      |trace| >= 2 && trace[0] == MakeMountDir(mountpoint)
      && trace[1] == RunMount(TorrentFile(torrentsDir, name), mountpoint)
      && (end.Closed? ==>
            Outstanding(trace) == {} && Unmounts(trace) == 1
            && (host.unmount.NotInstalled? ==> trace[|trace| - 1] == Unmount(mountpoint))
            && (!host.unmount.NotInstalled? ==>
                  trace[|trace| - 2] == Unmount(mountpoint) && trace[|trace| - 1] == RemoveDir(mountpoint))
            && (end.raised <==> host.mount.NotInstalled? || host.unmount.NotInstalled?))
      && (end.AwaitingKey? ==> Outstanding(trace) == {mountpoint} && Unmounts(trace) == 0)
  {
    CleansUpAfter(TorrentFile(torrentsDir, name), mountpoint, host, Browsing(mountpoint, tree, host, keys));
  }

  /** `SessionCleansUp` for any place the navigation loops reach. */
  lemma CleansUpAfter(torrentFile: Path, mountpoint: Path, host: Host, ph: Phase)
    ensures
      var (trace, end) := SessionAfter(torrentFile, mountpoint, host, ph);
      |trace| >= 2 && trace[1] == RunMount(torrentFile, mountpoint)
      && (end.Closed? ==>
            Outstanding(trace) == {} && Unmounts(trace) == 1
            && (host.unmount.NotInstalled? ==> trace[|trace| - 1] == Unmount(mountpoint))
            && (!host.unmount.NotInstalled? ==>
                  trace[|trace| - 2] == Unmount(mountpoint) && trace[|trace| - 1] == RemoveDir(mountpoint))
            && (end.raised <==> host.mount.NotInstalled? || host.unmount.NotInstalled?))
      && (end.AwaitingKey? ==> Outstanding(trace) == {mountpoint} && Unmounts(trace) == 0)
  {
    var tried := TryActions(torrentFile, mountpoint, host, ph);
    var (trace, end) := SessionAfter(torrentFile, mountpoint, host, ph);
    var body := [MakeMountDir(mountpoint)] + tried;
    TryActionsQuiet(torrentFile, mountpoint, host, ph);
    TrackQuiet({mountpoint}, tried);
    TrackAppend({}, [MakeMountDir(mountpoint)], tried);
    assert Track({}, [MakeMountDir(mountpoint)]) == Track({mountpoint}, []);
    assert Unmounts(body) == 0 by {
      forall a | a in body ensures !a.Unmount? {
        if a != body[0] { assert a in tried; }
      }
    }
    if end.Closed? {
      var cleanup := Cleanup(mountpoint, host.unmount).0;
      assert trace == body + cleanup;
      UnmountsAppend(body, cleanup);
      TrackAppend({}, body, cleanup);
      assert Track({mountpoint}, cleanup) == Track({}, cleanup[1..]);
      assert cleanup[1..] == [] || Track({}, cleanup[1..]) == Track({}, []);
    }
  }

  /** The `try` block starts with btfs, and neither makes nor unmounts a mount directory. */
  lemma TryActionsQuiet(torrentFile: Path, mountpoint: Path, host: Host, ph: Phase)
    ensures var tried := TryActions(torrentFile, mountpoint, host, ph);
      tried[0] == RunMount(torrentFile, mountpoint)
      && forall a :: a in tried ==> !a.MakeMountDir? && !a.Unmount?
  {
  }

  /** A session that browsed has seen btfs succeed and the directory become a mount. */
  lemma BrowsedOnlyWhenMounted(torrentsDir: Path, name: string, mountpoint: Path, tree: Node,
                               host: Host, keys: seq<Key>)
    ensures
      var (trace, end) := SessionSpec(torrentsDir, name, mountpoint, tree, host, keys);
      (end.AwaitingKey? || (end.Closed? && end.why.Browsed?)) <==>
        name + ".torrent" in host.library && host.mount.ExitZero? && host.isMount
  {
  }

  /**
   * A file the session plays is a video file below the mount point, not a
   * directory, and the players run are the ones `play_video` tries for it.
   */
  lemma PlayedFileInsideMount(torrentsDir: Path, name: string, mountpoint: Path, tree: Node,
                              host: Host, keys: seq<Key>)
    ensures
      var (trace, end) := SessionSpec(torrentsDir, name, mountpoint, tree, host, keys);
      end.Closed? && end.why.Browsed? && end.why.exit.Played? ==>
        var file := end.why.exit.file;
        file.Item? && mountpoint < file.path && IsVideo(file)
        && !IsDir(Mount(mountpoint, tree), file)
        && end.why.exit.result == PlayVideoSpec(Mount(mountpoint, tree), file, host.players)
  {
    var m := Mount(mountpoint, tree);
    RunInside(m, host.players, Listing(mountpoint), keys);
  }
}
