/** `play_video`: checks the chosen file, then tries the players in a fixed order. */
module Playback {
  import opened Wrappers
  import opened Navigator

  /** The players `play_video` tries, in order. */
  const Candidates: seq<string> := ["/usr/bin/mpv", "/usr/bin/mplayer", "/usr/bin/vlc"]

  /** Which executables exist, and which of them exit with status 0 on the file. */
  datatype Players = Players(installed: set<string>, succeeding: set<string>)

  predicate Works(h: Players, p: string)
  {
    p in h.installed && p in h.succeeding
  }

  datatype PlayResult =
    | FileNotFound
    | NoReadPermission
    | PlayedBy(player: string, tried: seq<string>)  // every player run, in order; the last one succeeded
    | NoPlayer(tried: seq<string>)                  // every installed candidate failed, or none is installed

  /** The installed candidates in priority order: the reference for what gets run. */
  function Installed(cands: seq<string>, h: Players): (r: seq<string>)
    ensures forall p :: p in r <==> p in cands && p in h.installed
    ensures |cands| == 1 ==> r == if cands[0] in h.installed then cands else []
  {
    if cands == [] then []
    else (if cands[0] in h.installed then [cands[0]] else []) + Installed(cands[1..], h)
  }

  /** The installed candidates of a list in two parts are those of the first part, then those of the second. */
  lemma {:induction false} InstalledAppend(a: seq<string>, b: seq<string>, h: Players)
    ensures Installed(a + b, h) == Installed(a, h) + Installed(b, h)
    decreases |a|
  {
    if a == [] {
      assert a + b == b;
    } else {
      var head := if a[0] in h.installed then [a[0]] else [];
      assert (a + b)[0] == a[0] && (a + b)[1..] == a[1..] + b;
      InstalledAppend(a[1..], b, h);
      calc {
        Installed(a + b, h);
        head + Installed(a[1..] + b, h);
        head + (Installed(a[1..], h) + Installed(b, h));
        (head + Installed(a[1..], h)) + Installed(b, h);
      }
    }
  }

  /**
   * The `for player in players` loop: skip what is not installed, run the rest in
   * order, stop at the first exit status 0. Gives the winner and the players run.
   */
  function TryPlayers(cands: seq<string>, h: Players): (r: (Option<string>, seq<string>))
    ensures r.0.Some? ==> r.1 != [] && r.1[|r.1| - 1] == r.0.value && Works(h, r.0.value)
    ensures |r.1| <= |cands|
  {
    if cands == [] then (None, [])
    else if cands[0] !in h.installed then TryPlayers(cands[1..], h)
    else if cands[0] in h.succeeding then (Some(cands[0]), [cands[0]])
    else
      var rest := TryPlayers(cands[1..], h);
      (rest.0, [cands[0]] + rest.1)
  }

  /**
   * Every player run is an installed candidate, and every one run before the
   * last, or every one when none wins, exited with an error; with no winner, no
   * candidate works.
   */
  lemma {:induction false} TryPlayersRuns(cands: seq<string>, h: Players)
    ensures var r := TryPlayers(cands, h);
      (forall p :: p in r.1 ==> p in cands && p in h.installed)
      && (r.0.Some? ==> forall j :: 0 <= j < |r.1| - 1 ==> r.1[j] !in h.succeeding)
      && (r.0.None? ==> forall j :: 0 <= j < |r.1| ==> r.1[j] !in h.succeeding)
      && (r.0.None? ==> forall p :: p in cands ==> !Works(h, p))
  {
    if cands != [] {
      TryPlayersRuns(cands[1..], h);
      var rest := TryPlayers(cands[1..], h);
      if cands[0] in h.installed && cands[0] !in h.succeeding {
        var r := TryPlayers(cands, h);
        assert r.1 == [cands[0]] + rest.1;
        forall j | 1 <= j < |r.1| ensures r.1[j] == rest.1[j - 1] { }
      }
      forall p | p in cands ensures p == cands[0] || p in cands[1..] {
        var i :| 0 <= i < |cands| && cands[i] == p;
        if i > 0 { assert cands[1..][i - 1] == p; }
      }
    }
  }

  /**
   * The first working candidate wins; the players run are the installed ones up
   * to it, so nothing after it is ever run.
   */
  lemma {:induction false} TryPlayersFirstWorking(cands: seq<string>, h: Players, i: nat)
    requires i < |cands| && Works(h, cands[i])
    requires forall j :: 0 <= j < i ==> !Works(h, cands[j])
    ensures TryPlayers(cands, h).0 == Some(cands[i])
    ensures TryPlayers(cands, h).1 == Installed(cands[..i + 1], h)
  {
    assert cands[..i + 1][0] == cands[0];
    if i > 0 {
      TryPlayersFirstWorking(cands[1..], h, i - 1);
      assert cands[1..][..i] == cands[..i + 1][1..];
    } else {
      assert cands[..1] == [cands[0]];
      assert Installed(cands[..1], h) == [cands[0]] + Installed([], h);
    }
  }

  /** With no working candidate every installed one is run, in order, and none wins. */
  lemma {:induction false} TryPlayersNoneWorks(cands: seq<string>, h: Players)
    requires forall j :: 0 <= j < |cands| ==> !Works(h, cands[j])
    ensures TryPlayers(cands, h).0 == None
    ensures TryPlayers(cands, h).1 == Installed(cands, h)
  {
    if cands != [] {
      assert !Works(h, cands[0]);
      TryPlayersNoneWorks(cands[1..], h);
    }
  }

  /** `os.path.abspath` then `os.path.exists`: an error line is a relative path outside the mounted tree. */
  function Resolve(m: Mount, e: Entry): Option<Node>
  {
    if e.Item? then Lookup(m, e.path) else None
  }

  /** What `play_video` does with `e`, as a function of the filesystem and the players. */
  function PlayVideoSpec(m: Mount, e: Entry, h: Players): (r: PlayResult)
    ensures r.PlayedBy? ==>
      r.player in Candidates && Works(h, r.player) && r.tried != [] && r.tried[|r.tried| - 1] == r.player
      && forall j :: 0 <= j < |r.tried| - 1 ==> r.tried[j] !in h.succeeding
    ensures r.NoPlayer? ==>
      (forall p :: p in Candidates ==> !Works(h, p)) && forall p :: p in r.tried ==> p in h.installed
  {
    TryPlayersRuns(Candidates, h);
    match Resolve(m, e)
    case None => FileNotFound
    case Some(n) =>
      if !n.readable then NoReadPermission
      else
        var (winner, tried) := TryPlayers(Candidates, h);
        if winner.Some? then PlayedBy(winner.value, tried) else NoPlayer(tried)
  }

  /** The `for player in players` loop of `play_video`. */
  method RunPlayers(cands: seq<string>, h: Players) returns (winner: Option<string>, tried: seq<string>)
    ensures winner == TryPlayers(cands, h).0 && tried == TryPlayers(cands, h).1
  {
    tried := [];
    assert cands[0..] == cands;
    for k := 0 to |cands|
      invariant TryPlayers(cands, h).0 == TryPlayers(cands[k..], h).0
      invariant TryPlayers(cands, h).1 == tried + TryPlayers(cands[k..], h).1
    {
      var player := cands[k];
      assert cands[k..][0] == player && cands[k..][1..] == cands[k + 1..];
      if player in h.installed {
        tried := tried + [player];
        if player in h.succeeding {
          return Some(player), tried;
        }
      }
    }
    assert cands[|cands|..] == [];
    return None, tried;
  }

  /** `play_video`. */
  method PlayVideo(m: Mount, e: Entry, h: Players) returns (result: PlayResult)
    ensures result == PlayVideoSpec(m, e, h)
  {
    var node := Resolve(m, e);
    if node.None? {
      return FileNotFound;
    }
    if !node.value.readable {
      return NoReadPermission;
    }
    var winner, tried := RunPlayers(Candidates, h);
    if winner.Some? {
      return PlayedBy(winner.value, tried);
    }
    return NoPlayer(tried);
  }

  /** A missing or unreadable file runs no player at all. */
  lemma PlayVideoChecksFileFirst(m: Mount, e: Entry, h: Players)
    ensures Resolve(m, e).None? ==> PlayVideoSpec(m, e, h) == FileNotFound
    ensures Resolve(m, e).Some? && !Resolve(m, e).value.readable ==>
              PlayVideoSpec(m, e, h) == NoReadPermission
    ensures PlayVideoSpec(m, e, h).PlayedBy? || PlayVideoSpec(m, e, h).NoPlayer? ==>
              Resolve(m, e).Some? && Resolve(m, e).value.readable
  {
  }

  /**
   * Only the second candidate exists and succeeds: it plays, the first is only
   * looked for and the third is never run.
   */
  lemma OnlySecondWorks(m: Mount, e: Entry)
    requires Resolve(m, e).Some? && Resolve(m, e).value.readable
    ensures PlayVideoSpec(m, e, Players({Candidates[1]}, {Candidates[1]}))
            == PlayedBy("/usr/bin/mplayer", ["/usr/bin/mplayer"])
  {
    var h := Players({Candidates[1]}, {Candidates[1]});
    TryPlayersFirstWorking(Candidates, h, 1);
    assert Installed(Candidates[..2], h) == ["/usr/bin/mplayer"];
  }

  /** No candidate installed: nothing runs and no player is found. */
  lemma NoneInstalled(m: Mount, e: Entry, succeeding: set<string>)
    requires Resolve(m, e).Some? && Resolve(m, e).value.readable
    ensures PlayVideoSpec(m, e, Players({}, succeeding)) == NoPlayer([])
  {
    var h := Players({}, succeeding);
    TryPlayersNoneWorks(Candidates, h);
    assert Installed(Candidates[2..], h) == [];
    assert Installed(Candidates[1..], h) == [];
  }
}
