/**
 * The external effects of the core, recorded in the order they are attempted.
 * Commands and OS queries are not run: their outcomes are inputs of the model.
 */
module Actions {
  import opened Paths

  /** What `subprocess.run(..., check=True)` can end with. */
  datatype CommandResult =
    | ExitZero
    | ExitNonZero(report: string)  // raises CalledProcessError, whose text is `report`
    | NotInstalled                 // raises FileNotFoundError: the executable is missing

  datatype Action =
    | MakeMountDir(dir: Path)            // tempfile.mkdtemp(prefix="btplay-")
    | RunMount(torrent: Path, dir: Path) // btfs <torrent> <dir>
    | CheckMount(dir: Path)              // os.path.ismount(dir)
    | LoadContent(dir: Path)             // the Qt playlist walks the mounted tree
    | RunPlayer(player: string, file: string)
    | Unmount(dir: Path)                 // fusermount -u <dir>
    | RemoveDir(dir: Path)               // shutil.rmtree(dir)

  /**
   * Mount directories still awaiting an unmount after `a`, starting from `held`.
   * An attempted `fusermount -u` ends the wait whether or not it succeeds: a
   * failed one leaves the btfs mount and its directory in place.
   */
  function Held(held: set<Path>, a: Action): set<Path>
  {
    match a
    case MakeMountDir(d) => held + {d}
    case Unmount(d) => held - {d}
    case _ => held
  }

  /** Mount directories made by `log` for which no unmount has been attempted since. */
  function Track(held: set<Path>, log: seq<Action>): set<Path>
    decreases log
  {
    if log == [] then held else Track(Held(held, log[0]), log[1..])
  }

  function Outstanding(log: seq<Action>): set<Path>
  {
    Track({}, log)
  }

  lemma {:induction false} TrackAppend(held: set<Path>, a: seq<Action>, b: seq<Action>)
    ensures Track(held, a + b) == Track(Track(held, a), b)
    decreases a
  {
    if a != [] {
      assert (a + b)[0] == a[0] && (a + b)[1..] == a[1..] + b;
      TrackAppend(Held(held, a[0]), a[1..], b);
    } else {
      assert a + b == b;
    }
  }

  /** How many unmounts `log` attempts. */
  function Unmounts(log: seq<Action>): (n: nat)
    ensures n <= |log|
    ensures n == 0 <==> forall a :: a in log ==> !a.Unmount?
    decreases log
  {
    if log == [] then 0
    else (if log[0].Unmount? then 1 else 0) + Unmounts(log[1..])
  }

  lemma {:induction false} UnmountsAppend(a: seq<Action>, b: seq<Action>)
    ensures Unmounts(a + b) == Unmounts(a) + Unmounts(b)
    decreases a
  {
    if a != [] {
      assert (a + b)[0] == a[0] && (a + b)[1..] == a[1..] + b;
      UnmountsAppend(a[1..], b);
    } else {
      assert a + b == b;
    }
  }

  /** Recording one more action updates the held set by that action alone. */
  lemma OutstandingSnoc(log: seq<Action>, a: Action)
    ensures Outstanding(log + [a]) == Held(Outstanding(log), a)
  {
    TrackAppend({}, log, [a]);
    assert [a][1..] == [];
  }
}
