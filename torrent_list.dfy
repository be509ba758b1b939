/**
 * `list_torrents` in the curses player: the `*.torrent` files of the torrents
 * directory, a wrapping selection over them, and the torrent name that Enter
 * hands on to `play_torrent`.
 */
module TorrentList {
  import opened Strings
  import opened Keys
  import opened Navigator

  const TorrentSuffix: string := ".torrent"

  /** A file name `glob('*.torrent')` matches: `*` does not match a leading dot. */
  predicate IsTorrentName(n: string)
  {
    EndsWith(n, TorrentSuffix) && n[0] != '.'
  }

  /** The base names `glob` returns, in directory order. */
  function TorrentGlob(listing: seq<string>): (r: seq<string>)
    ensures forall n :: n in r <==> n in listing && IsTorrentName(n)
    ensures |listing| == 1 ==> r == if IsTorrentName(listing[0]) then listing else []
  {
    if listing == [] then []
    else (if IsTorrentName(listing[0]) then [listing[0]] else []) + TorrentGlob(listing[1..])
  }

  /** The matches in a listing in two parts are those of the first part, then those of the second. */
  lemma {:induction false} TorrentGlobAppend(a: seq<string>, b: seq<string>)
    ensures TorrentGlob(a + b) == TorrentGlob(a) + TorrentGlob(b)
    decreases |a|
  {
    if a == [] {
      assert a + b == b;
    } else {
      var head := if IsTorrentName(a[0]) then [a[0]] else [];
      assert (a + b)[0] == a[0] && (a + b)[1..] == a[1..] + b;
      TorrentGlobAppend(a[1..], b);
      calc {
        TorrentGlob(a + b);
        head + TorrentGlob(a[1..] + b);
        head + (TorrentGlob(a[1..]) + TorrentGlob(b));
        (head + TorrentGlob(a[1..])) + TorrentGlob(b);
      }
    }
  }

  /** The torrent name of a `.torrent` file: the file name without its suffix. */
  function StripTorrentSuffix(b: string): (r: string)
    requires EndsWith(b, TorrentSuffix)
    ensures r + TorrentSuffix == b
  {
    b[..|b| - |TorrentSuffix|]
  }

  /** `os.path.basename(f).replace('.torrent', '')`: every occurrence is removed. */
  function TorrentNameAsWritten(b: string): (r: string)
    ensures Occurs(b, TorrentSuffix) ==> |r| < |b|
    ensures !Occurs(b, TorrentSuffix) ==> r == b
  {
    ReplaceAll(b, TorrentSuffix, "")
  }

  /** How the torrent list ends. */
  datatype Pick =
    | NoTorrents               // "No .torrent files found."
    | Chosen(name: string)     // Enter: the name passed to `play_torrent`
    | Declined                 // 'q'
    | Choosing(selected: int)  // keys used up: still waiting in getch

  /**
   * The selection loop from `selected`. Whatever the keys, a name chosen is the
   * name of one of the listed files, and a pending selection is in range.
   */
  function PickFrom(files: seq<string>, selected: int, keys: seq<Key>): (r: Pick)
    requires 0 <= selected < |files|
    requires forall f :: f in files ==> EndsWith(f, TorrentSuffix)
    ensures r.Chosen? ==> r.name + TorrentSuffix in files
    ensures r.Choosing? ==> 0 <= r.selected < |files|
    ensures !r.NoTorrents?
    decreases |keys|
  {
    if keys == [] then Choosing(selected)
    else if keys[0] == KeyDown then PickFrom(files, MoveDown(selected, |files|), keys[1..])
    else if keys[0] == KeyUp then PickFrom(files, MoveUp(selected, |files|), keys[1..])
    else if keys[0] == KeyEnter then
      assert files[selected] in files;
      Chosen(StripTorrentSuffix(files[selected]))
    else if keys[0] == KeyQuit then Declined
    else PickFrom(files, selected, keys[1..])
  }

  function ListTorrentsSpec(listing: seq<string>, keys: seq<Key>): Pick
  {
    var files := TorrentGlob(listing);
    if files == [] then NoTorrents else PickFrom(files, 0, keys)
  }

  /** A chosen name always names a `.torrent` file of the listing, which `play_torrent` then finds. */
  lemma ChosenIsListed(listing: seq<string>, keys: seq<Key>)
    ensures ListTorrentsSpec(listing, keys).Chosen? ==>
              var n := ListTorrentsSpec(listing, keys).name + TorrentSuffix;
              n in listing && IsTorrentName(n)
    ensures ListTorrentsSpec(listing, keys).NoTorrents? <==>
              forall n :: n in listing ==> !IsTorrentName(n)
  {
    var files := TorrentGlob(listing);
    if files != [] {
      assert files[0] in files;
    }
  }

  /** `list_torrents`: the selection loop over the glob result. */
  method ListTorrents(listing: seq<string>, keys: seq<Key>) returns (pick: Pick)
    ensures pick == ListTorrentsSpec(listing, keys)
  {
    var torrentFiles := TorrentGlob(listing);
    if |torrentFiles| == 0 {
      return NoTorrents;
    }
    var selected := 0;
    var i := 0;
    while i < |keys|
      invariant 0 <= i <= |keys| && 0 <= selected < |torrentFiles|
      invariant PickFrom(torrentFiles, selected, keys[i..]) == PickFrom(torrentFiles, 0, keys)
      decreases |keys| - i
    {
      var key := keys[i];
      assert keys[i..][0] == key && keys[i..][1..] == keys[i + 1..];
      i := i + 1;
      if key == KeyDown {
        selected := (selected + 1) % |torrentFiles|;
      } else if key == KeyUp {
        selected := (selected - 1) % |torrentFiles|;
      } else if key == KeyEnter {
        var torrentFile := torrentFiles[selected];
        return Chosen(StripTorrentSuffix(torrentFile));
      } else if key == KeyQuit {
        return Declined;
      }
    }
    pick := Choosing(selected);
  }

  /** On a name with no dot before the suffix, the replace-all and the suffix strip agree. */
  lemma {:induction false} AsWrittenAgreesWithoutDots(n: string)
    requires '.' !in n
    ensures TorrentNameAsWritten(n + TorrentSuffix) == n == StripTorrentSuffix(n + TorrentSuffix)
  {
    var s := n + TorrentSuffix;
    if n == [] {
      assert s == TorrentSuffix;
      assert s[..|TorrentSuffix|] == TorrentSuffix && s[|TorrentSuffix|..] == [];
      assert ReplaceAll(s[|TorrentSuffix|..], TorrentSuffix, "") == "";
    } else {
      assert s[0] == n[0] && s[..|TorrentSuffix|][0] == s[0];
      assert s[1..] == n[1..] + TorrentSuffix;
      AsWrittenAgreesWithoutDots(n[1..]);
      assert n == [n[0]] + n[1..];
    }
  }

  /**
   * "a.torrent.torrent" is listed, but the replace-all turns it into "a",
   * whose `.torrent` file is a different (here missing) file; the suffix strip
   * gives back "a.torrent".
   */
  lemma AsWrittenLosesName()
    ensures IsTorrentName("a.torrent.torrent")
    ensures TorrentNameAsWritten("a.torrent.torrent") == "a"
    ensures "a" + TorrentSuffix != "a.torrent.torrent"
    ensures StripTorrentSuffix("a.torrent.torrent") == "a.torrent"
  {
    var s := "a.torrent.torrent";
    assert s[..8] != TorrentSuffix by { assert s[..8][0] == 'a'; }
    assert s[1..][..8] == TorrentSuffix && s[1..][8..] == TorrentSuffix;
    assert TorrentSuffix[..8] == TorrentSuffix && TorrentSuffix[8..] == [];
    assert ReplaceAll(TorrentSuffix, TorrentSuffix, "") == "";
    assert ReplaceAll(s[1..], TorrentSuffix, "") == "";
    assert |"a" + TorrentSuffix| != |s|;
  }
}
