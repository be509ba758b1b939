/**
 * Fetching a torrent's metadata with aria2c: the magnet URI and tracker
 * parameters (no URL encoding), the aria2c command line, and the rename of
 * the saved `<infohash>.torrent` to `<name>.torrent`. Both front ends do this:
 * `download_metadata` in the curses search tool and `MetadataDownloadThread.run`
 * in the Qt player; they differ in what they report and which errors escape.
 */
module Magnet {
  import opened Wrappers
  import opened Strings
  import opened Paths
  import opened Actions

  /** The `xt` part of the link: an exact topic, as a BitTorrent info-hash URN. */
  function ExactTopic(infohash: string): string
  {
    "magnet:?xt=urn:btih:" + infohash
  }

  /** `f"magnet:?xt=urn:btih:{infohash}&dn={name}"`. */
  function MagnetLink(infohash: string, name: string): (r: string)
    ensures "magnet:?xt=urn:btih:" <= r && ExactTopic(infohash) <= r
    ensures '&' !in infohash && '&' !in name ==> Split(r, '&') == [ExactTopic(infohash), "dn=" + name]
  {
    var r := "magnet:?xt=urn:btih:" + infohash + "&dn=" + name;
    var fields := [ExactTopic(infohash), "dn=" + name];
    assert r == JoinWith(fields, '&') by {
      assert fields[1..] == ["dn=" + name];
    }
    assert '&' !in infohash && '&' !in name ==> Split(r, '&') == fields by {
      if '&' !in infohash && '&' !in name {
        assert '&' !in "magnet:?xt=urn:btih:";
        assert '&' !in "dn=";
        SplitJoin(fields, '&');
      }
    }
    r
  }

  /** The tracker lines that are not empty, in order. */
  function NonEmpty(trackers: seq<string>): (r: seq<string>)
    ensures forall t :: t in r <==> t in trackers && t != ""
    ensures |r| <= |trackers|
    ensures |trackers| == 1 ==> r == if trackers[0] != "" then trackers else []
  {
    if trackers == [] then []
    else (if trackers[0] != "" then [trackers[0]] else []) + NonEmpty(trackers[1..])
  }

  /** The tracker lines kept from a list in two parts are those of the first part, then those of the second. */
  lemma {:induction false} NonEmptyAppend(a: seq<string>, b: seq<string>)
    ensures NonEmpty(a + b) == NonEmpty(a) + NonEmpty(b)
    decreases |a|
  {
    if a == [] {
      assert a + b == b;
    } else {
      var head := if a[0] != "" then [a[0]] else [];
      assert (a + b)[0] == a[0] && (a + b)[1..] == a[1..] + b;
      NonEmptyAppend(a[1..], b);
      calc {
        NonEmpty(a + b);
        head + NonEmpty(a[1..] + b);
        head + (NonEmpty(a[1..]) + NonEmpty(b));
        (head + NonEmpty(a[1..])) + NonEmpty(b);
      }
    }
  }

  /** One `tr=` parameter per non-empty tracker line, in order. */
  function TrackerFields(trackers: seq<string>): (r: seq<string>)
    ensures |r| == |NonEmpty(trackers)|
    ensures forall i :: 0 <= i < |r| ==> r[i] == "tr=" + NonEmpty(trackers)[i]
  {
    var ts := NonEmpty(trackers);
    seq(|ts|, i requires 0 <= i < |ts| => "tr=" + ts[i])
  }

  /** `"&".join(f"tr={tracker}" for tracker in trackers if tracker)`. */
  function TrackerParams(trackers: seq<string>): string
  {
    JoinWith(TrackerFields(trackers), '&')
  }

  /** The last argument of the aria2c command: `f"{magnet_link}&{tracker_params}"`. */
  function MagnetArgument(infohash: string, name: string, trackers: seq<string>): (r: string)
    ensures MagnetLink(infohash, name) + "&" <= r
    ensures NonEmpty(trackers) == [] ==> r == MagnetLink(infohash, name) + "&"
  {
    MagnetLink(infohash, name) + "&" + TrackerParams(trackers)
  }

  /** The `&`-separated fields of the argument: a trailing empty field when no tracker line has text. */
  function ArgumentFields(infohash: string, name: string, trackers: seq<string>): seq<string>
  {
    [ExactTopic(infohash), "dn=" + name]
      + (if NonEmpty(trackers) == [] then [""] else TrackerFields(trackers))
  }

  lemma JoinWithCons(x: string, rest: seq<string>, sep: char)
    requires rest != []
    ensures JoinWith([x] + rest, sep) == x + [sep] + JoinWith(rest, sep)
  {
    assert ([x] + rest)[1..] == rest;
  }

  /** The argument is its fields joined with `&`. */
  lemma ArgumentIsJoin(infohash: string, name: string, trackers: seq<string>)
    ensures MagnetArgument(infohash, name, trackers) == JoinWith(ArgumentFields(infohash, name, trackers), '&')
  {
    var rest := if NonEmpty(trackers) == [] then [""] else TrackerFields(trackers);
    assert JoinWith(rest, '&') == TrackerParams(trackers);
    JoinWithCons("dn=" + name, rest, '&');
    assert ArgumentFields(infohash, name, trackers) == [ExactTopic(infohash)] + (["dn=" + name] + rest);
    JoinWithCons(ExactTopic(infohash), ["dn=" + name] + rest, '&');
  }

  /** No field holds a `&` when the info-hash, the name and the trackers hold none. */
  lemma FieldsFree(infohash: string, name: string, trackers: seq<string>)
    requires '&' !in infohash && '&' !in name
    requires forall t :: t in trackers ==> '&' !in t
    ensures forall i :: 0 <= i < |ArgumentFields(infohash, name, trackers)| ==>
              '&' !in ArgumentFields(infohash, name, trackers)[i]
  {
    var fields := ArgumentFields(infohash, name, trackers);
    forall i | 0 <= i < |fields| ensures '&' !in fields[i] {
      if i >= 2 && NonEmpty(trackers) != [] {
        var t := NonEmpty(trackers)[i - 2];
        assert t in NonEmpty(trackers);
        assert fields[i] == "tr=" + t;
      }
    }
  }

  /**
   * Splitting the argument at `&` gives back the info-hash topic, the display
   * name and one `tr=` field per non-empty tracker line, when none of them
   * holds a `&` (nothing is URL-encoded).
   */
  lemma MagnetRoundTrip(infohash: string, name: string, trackers: seq<string>)
    requires '&' !in infohash && '&' !in name
    requires forall t :: t in trackers ==> '&' !in t
    ensures Split(MagnetArgument(infohash, name, trackers), '&') == ArgumentFields(infohash, name, trackers)
  {
    ArgumentIsJoin(infohash, name, trackers);
    FieldsFree(infohash, name, trackers);
    SplitJoin(ArgumentFields(infohash, name, trackers), '&');
  }

  /** The files of the torrents directory: name to contents. */
  type Library = map<string, string>

  /** `rename_torrent_file`: rename when the old file exists, else change nothing and give `None`. */
  function RenameTorrentFile(torrentsDir: Path, lib: Library, oldName: string, newName: string)
    : (r: (Library, Option<Path>))
    ensures oldName in lib ==>
              r.1 == Some(Join(torrentsDir, newName)) && newName in r.0 && r.0[newName] == lib[oldName]
              && (oldName != newName ==> oldName !in r.0)
    ensures oldName !in lib ==> r.0 == lib && r.1 == None
    ensures forall n :: n != oldName && n != newName ==> (n in r.0 <==> n in lib) && (n in lib ==> r.0[n] == lib[n])
  {
    if oldName in lib then ((lib - {oldName})[newName := lib[oldName]], Some(Join(torrentsDir, newName)))
    else (lib, None)
  }

  /** Renaming to a free name and back restores the directory. */
  lemma RenameBack(torrentsDir: Path, lib: Library, oldName: string, newName: string)
    requires oldName in lib && newName !in lib
    ensures RenameTorrentFile(torrentsDir, RenameTorrentFile(torrentsDir, lib, oldName, newName).0, newName, oldName).0
            == lib
  {
    var there := RenameTorrentFile(torrentsDir, lib, oldName, newName).0;
    var back := RenameTorrentFile(torrentsDir, there, newName, oldName).0;
    assert forall n :: n in back <==> n in lib;
  }

  /** What an aria2c run leaves behind: its exit, and the file it saved at `--out`, if any. */
  datatype Aria2 = Aria2(result: CommandResult, saved: Option<string>)

  function TemporaryName(infohash: string): string
  {
    infohash + ".torrent"
  }

  /** The aria2c command line: metadata only, saved in the torrents directory under the info-hash. */
  function Aria2Command(torrentsDir: Path, infohash: string, name: string, trackers: seq<string>)
    : (r: seq<string>)
    ensures |r| == 6 && r[0] == "aria2c" && r[4] == "--out=" + TemporaryName(infohash)
    ensures r[5] == MagnetArgument(infohash, name, trackers)
  {
    ["aria2c", "--bt-metadata-only=true", "--bt-save-metadata=true",
     "--dir=" + Render(torrentsDir), "--out=" + TemporaryName(infohash),
     MagnetArgument(infohash, name, trackers)]
  }

  /** The directory after aria2c ran, before any rename. */
  function AfterAria2(lib: Library, infohash: string, aria2: Aria2): Library
  {
    if !aria2.result.NotInstalled? && aria2.saved.Some? then lib[TemporaryName(infohash) := aria2.saved.value]
    else lib
  }

  /** The status line `download_metadata` ends with; `Aria2Missing`: the error escapes. */
  datatype Download = FetchFailed | Downloaded | Aria2Failed(report: string) | Aria2Missing

  /**
   * `download_metadata` in the curses search tool: the command it runs (if
   * any), the torrents directory afterwards and its outcome. `trackers` is what
   * `fetch_trackers` gave: the tracker list's lines, or `[]` on an HTTP error.
   */
  function DownloadMetadata(torrentsDir: Path, infohash: string, name: string, trackers: seq<string>,
                            aria2: Aria2, lib: Library): (r: (Option<seq<string>>, Library, Download))
    ensures r.0.None? <==> trackers == []
    ensures r.0.Some? ==> r.0.value == Aria2Command(torrentsDir, infohash, name, trackers)
    ensures r.2.Downloaded? <==> trackers != [] && aria2.result.ExitZero?
    ensures r.2.Aria2Missing? <==> trackers != [] && aria2.result.NotInstalled?
    ensures r.2.Aria2Missing? || r.2.FetchFailed? ==> r.1 == lib
  {
    if trackers == [] then (None, lib, FetchFailed)
    else
      var command := Aria2Command(torrentsDir, infohash, name, trackers);
      var saved := AfterAria2(lib, infohash, aria2);
      match aria2.result
      case ExitZero =>
        (Some(command), RenameTorrentFile(torrentsDir, saved, TemporaryName(infohash), name + ".torrent").0, Downloaded)
      case ExitNonZero(report) => (Some(command), saved, Aria2Failed(report))
      case NotInstalled => (Some(command), lib, Aria2Missing)
  }

  /**
   * `MetadataDownloadThread.run`, its sequential body: the command, the
   * directory afterwards and the `download_complete` signal, `None` when an
   * exception ends the thread instead (aria2c missing, or no file to rename).
   */
  function MetadataRun(torrentsDir: Path, infohash: string, name: string, trackers: seq<string>,
                       aria2: Aria2, lib: Library): (r: (Option<seq<string>>, Library, Option<(bool, string)>))
    ensures r.0.None? <==> trackers == []
    ensures r.0.Some? ==> r.0.value == Aria2Command(torrentsDir, infohash, name, trackers)
    ensures r.2.Some? && r.2.value.0 ==> aria2.result.ExitZero? && name + ".torrent" in r.1
    ensures r.2.None? <==>
      trackers != [] && (aria2.result.NotInstalled?
        || (aria2.result.ExitZero? && TemporaryName(infohash) !in AfterAria2(lib, infohash, aria2)))
  {
    if trackers == [] then (None, lib, Some((false, "Failed to fetch trackers.")))
    else
      var command := Aria2Command(torrentsDir, infohash, name, trackers);
      var saved := AfterAria2(lib, infohash, aria2);
      match aria2.result
      case ExitZero =>
        if TemporaryName(infohash) in saved then
          (Some(command), RenameTorrentFile(torrentsDir, saved, TemporaryName(infohash), name + ".torrent").0,
           Some((true, "Download complete: " + name + ".torrent")))
        else (Some(command), saved, None)
      case ExitNonZero(report) => (Some(command), saved, Some((false, "Error while running aria2c: " + report)))
      case NotInstalled => (Some(command), lib, None)
  }

  /** With no tracker list, neither front end builds or runs a command, and no file changes. */
  lemma NoTrackersNoCommand(torrentsDir: Path, infohash: string, name: string, aria2: Aria2, lib: Library)
    ensures DownloadMetadata(torrentsDir, infohash, name, [], aria2, lib).0 == None
    ensures DownloadMetadata(torrentsDir, infohash, name, [], aria2, lib).1 == lib
    ensures DownloadMetadata(torrentsDir, infohash, name, [], aria2, lib).2 == FetchFailed
    ensures MetadataRun(torrentsDir, infohash, name, [], aria2, lib).0 == None
    ensures MetadataRun(torrentsDir, infohash, name, [], aria2, lib).1 == lib
    ensures MetadataRun(torrentsDir, infohash, name, [], aria2, lib).2 == Some((false, "Failed to fetch trackers."))
  {
  }

  /**
   * `<name>.torrent` is written only after aria2c succeeds, and then holds the
   * metadata aria2c saved; any other outcome leaves it as it was.
   */
  lemma RenamedOnlyAfterSuccess(torrentsDir: Path, infohash: string, name: string, trackers: seq<string>,
                                aria2: Aria2, lib: Library)
    requires TemporaryName(infohash) != name + ".torrent"
    ensures var after := DownloadMetadata(torrentsDir, infohash, name, trackers, aria2, lib).1;
      (trackers != [] && aria2.result.ExitZero? && aria2.saved.Some? ==>
         name + ".torrent" in after && after[name + ".torrent"] == aria2.saved.value
         && TemporaryName(infohash) !in after)
      && (trackers == [] || !aria2.result.ExitZero? ==>
         (name + ".torrent" in after <==> name + ".torrent" in lib)
         && (name + ".torrent" in lib ==> after[name + ".torrent"] == lib[name + ".torrent"]))
  {
  }

  /**
   * The two front ends build the same command and leave the same directory
   * whenever the Qt thread reports at all; the curses tool reports success
   * exactly when the Qt thread would, except that it also does so when no
   * file was saved (its rename returns `None` silently).
   */
  lemma FrontEndsAgree(torrentsDir: Path, infohash: string, name: string, trackers: seq<string>,
                       aria2: Aria2, lib: Library)
    ensures
      var curses := DownloadMetadata(torrentsDir, infohash, name, trackers, aria2, lib);
      var qt := MetadataRun(torrentsDir, infohash, name, trackers, aria2, lib);
      curses.0 == qt.0
      && (qt.2.Some? ==> curses.1 == qt.1)
      && (qt.2.Some? && qt.2.value.0 ==> curses.2 == Downloaded)
      && (curses.2 == Downloaded ==>
            (qt.2 == Some((true, "Download complete: " + name + ".torrent"))
             <==> TemporaryName(infohash) in AfterAria2(lib, infohash, aria2)))
      && (curses.2 == Aria2Missing <==> qt.2.None? && aria2.result.NotInstalled?)
  {
  }
}
