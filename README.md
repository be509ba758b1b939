# Torrent player core, modelled and verified in Dafny

The torrent player streams a torrent through a btfs mount and plays a video from it. It comes as a curses player (`TorrentPlayer.py`), a curses search tool (`search_torrents.py`) and a Qt player (`TorrentPlayer_PyQT.py`). This project models the sequential logic inside their user-interface code. The environment is abstracted throughout:

- the mounted torrent is a tree of files and directories;
- the torrents directory is a set (or a name-to-contents map) of file names;
- the outcome of every external command (btfs, fusermount, aria2c, the media players) is an input;
- key presses are a sequence of curses key codes;
- the search service is a function from a request's query parameters to its reply.

What each front end does is recorded as a trace of actions. The proofs are stated over that trace: cleanup ordering, "unmount is always attempted" and "at most one mount directory awaits an unmount". A mount directory awaits an unmount from `mkdtemp` until `fusermount -u` is attempted for it. A fusermount that fails ends the wait but leaves the btfs mount, and its directory, in place.

Modules, one per file:

| file | module | models |
|---|---|---|
| `wrappers.dfy` | `Wrappers` | `Option` |
| `strings.dfy` | `Strings` | the Python string operations used: slicing with negative bounds, `endswith`, ASCII `lower`, `join`/`split` on one character, `replace`, string ordering, and `sorted` as an insertion sort |
| `paths.dfy` | `Paths` | paths as sequences of names; `os.path.join`, `os.path.dirname`, rendering as text |
| `actions.dfy` | `Actions` | command outcomes, the action trace, and the set of mount directories still awaiting an unmount |
| `keys.dfy` | `Keys` | curses key codes |
| `truncate.dfy` | `Truncate` | `truncate_string`, `os.path.splitext`, `truncate_filename` (as written and corrected) |
| `navigator.dfy` | `Navigator` | the mounted tree, `list_files`, the directory and video filters, the wrapping selection |
| `playback.dfy` | `Playback` | `play_video` and its ordered player fallback |
| `session.dfy` | `Session` | `play_torrent`: mount, the two navigation loops, the `finally` cleanup |
| `torrent_list.dfy` | `TorrentList` | `list_torrents`: the glob, the selection loop, the torrent name handed on |
| `magnet.dfy` | `Magnet` | the magnet URI, the tracker parameters, the aria2c command, `rename_torrent_file`, `download_metadata` and the Qt `MetadataDownloadThread.run` |
| `search.dfy` | `Search` | `search_torrents`' parameters and the results browser in `main` |
| `qt_mount.dfy` | `QtMount` | `FileListWidget`'s mount lifecycle and the main window's `closeEvent` |

Behaviour of the code worth noting:

- `list_files` returns a one-element list holding the error text on `OSError`. It does not return an empty list.
- `play_video` only shows "No suitable media player found." when every player fails. It raises no error that lists the failures.
- Only `CalledProcessError` is caught around btfs and fusermount in `play_torrent`. So a btfs or fusermount that is not installed raises `FileNotFoundError` out of the session. For btfs, the `finally` block still runs first. For fusermount, that error escapes the `finally` block before `rmtree`. The model records this as `raised`.

## Model

| member | source | states |
|---|---|---|
| Strings.PyPrefix | TorrentPlayer.py:22 | Python's `s[:k]`: a prefix of `s`, of length `min(k, len(s))` for `k >= 0` and `max(0, len(s)+k)` for negative `k` |
| Strings.Lower | TorrentPlayer.py:284 | `str.lower()` on ASCII: keeps the length, turns each upper-case letter into its lower-case letter (32 code points down), keeps every other character, and leaves no upper-case letter |
| Strings.LowerAppend | TorrentPlayer.py:284 | lowering distributes over concatenation |
| Strings.JoinWith | search_torrents.py:108 | `"&".join` of no parts is empty, of one part is that part |
| Strings.Split | search_torrents.py:108 | splitting gives at least one field and no field holds the separator |
| Strings.IndexOf | search_torrents.py:108 | the first occurrence of a character |
| Strings.IndexOfIs | search_torrents.py:108 | a position holding the character with no occurrence before it is the first occurrence |
| Strings.SplitJoin | search_torrents.py:108 | splitting a join at the separator gives back the parts when none holds it |
| Strings.LessIrreflexive | TorrentPlayer.py:160 | string order is irreflexive |
| Strings.LessTotal | TorrentPlayer.py:160 | string order is total on distinct strings |
| Strings.NotLessTrans | TorrentPlayer.py:160 | "not less" is transitive |
| Strings.LessAsym | TorrentPlayer.py:160 | string order is asymmetric |
| Strings.LessCommonPrefix | TorrentPlayer.py:160 | a common prefix does not change how two strings compare |
| Strings.SortedCons | TorrentPlayer.py:160 | a sorted list stays sorted under a head that none of its elements is below |
| Strings.BelowHead | TorrentPlayer.py:160 | a string not above the head of a sorted list is not above any element |
| Strings.AboveHead | TorrentPlayer.py:160 | inserting a string above the head behind it leaves nothing below the head |
| Strings.Insert | TorrentPlayer.py:160 | inserting into a sorted list keeps it sorted and adds exactly that element |
| Strings.Sort | TorrentPlayer.py:160 | `sorted` returns a sorted permutation of its input |
| Strings.ReplaceAll | TorrentPlayer.py:388 | `str.replace` with a non-empty pattern: nothing changes when the pattern does not occur; the result is never longer when the replacement is no longer than the pattern, and strictly shorter when the pattern occurs and the replacement is shorter |
| Paths.Render | TorrentPlayer.py:163 | the text of a path starts with `/` |
| Paths.Join | TorrentPlayer.py:160 | `os.path.join(dir, name)` extends `dir` by exactly `name` |
| Paths.Dirname | TorrentPlayer.py:291 | `os.path.dirname` is the path that `name` joins back to the original |
| Paths.DirnameStaysWithin | TorrentPlayer.py:290-291 | below the mount root, the parent is still within the root and one level shorter |
| Paths.JoinWithSnoc | TorrentPlayer.py:160 | joining one more name appends a separator and that name |
| Paths.RenderJoin | TorrentPlayer.py:160 | the text of a joined path is the directory's text, `/`, then the name |
| Actions.TrackAppend | TorrentPlayer.py:335-356 | following a trace in two parts is following it in one |
| Actions.OutstandingSnoc | TorrentPlayer_PyQT.py:328-336 | one more action changes the mount directories awaiting an unmount by that action alone |
| Actions.Unmounts | TorrentPlayer.py:338-342 | the number of `fusermount -u` attempts in a trace, at most its length, and zero exactly when the trace has none |
| Actions.UnmountsAppend | TorrentPlayer.py:335-356 | the attempts in two parts of a trace add up |
| Truncate.TruncateString | TorrentPlayer.py:20-22 | unchanged when it fits; else the first `width-3` characters and `...`, exactly `width` long for `width >= 3`; for smaller widths the negative slice bound keeps `len(s)+width-3` characters of `s`, so the result is `max(3, len(s)+width)` long |
| Truncate.LastIndexOf | TorrentPlayer.py:27 | `str.rfind`: the index of the last occurrence, or -1 |
| Truncate.LastIndexOfIs | TorrentPlayer.py:27 | an index holding the character with no occurrence after it is what `rfind` returns |
| Truncate.Splitext | TorrentPlayer.py:27 | `os.path.splitext`: name plus extension is the input; the extension is non-empty exactly when the last name of the path has a dot with no dot or slash after it and a non-dot character before it, and then the split is at that dot |
| Truncate.ExtensionAtLastDot | TorrentPlayer.py:27 | such a dot is the last dot of the path, after its last slash, with a non-dot character between them |
| Truncate.SplitextExample | TorrentPlayer.py:27 | `abc.torrent` splits into `abc` and `.torrent` |
| Truncate.TruncateFilenameAsWritten | TorrentPlayer.py:24-30 | unchanged when it fits; else a name prefix, `...`, and the original extension; exactly `max_length` long when the extension leaves room |
| Truncate.TruncateFilenameCanGrow | TorrentPlayer.py:28 | when the name is too long, `len(ext) < max_length < len(ext)+3` and the name part has at least three characters, the result is longer than the input |
| Truncate.TruncateFilenameGrowsExample | TorrentPlayer.py:28 | `abc.torrent` at width 9 becomes `a....torrent` |
| Truncate.TruncateFilename | TorrentPlayer.py:24-30 | corrected `truncate_filename` (the Qt copy at TorrentPlayer_PyQT.py:33-38 has the same slice): the result is `max(max_length, len(ext)+3)` long and never longer than the input when the name part has at least three characters |
| Truncate.TruncateFilenameAgrees | TorrentPlayer.py:24-30 | the corrected and as-written versions agree whenever the extension leaves room |
| Navigator.Basenames | TorrentPlayer.py:160 | one base name per entry |
| Navigator.ListFiles | TorrentPlayer.py:158-163 | a readable directory lists one item per child; otherwise the listing is one line starting `Error listing directory: ` |
| Navigator.BasenamesOfChildren | TorrentPlayer.py:160 | the base names of joined children are the names |
| Navigator.ListFilesSorted | TorrentPlayer.py:158-161 | a readable directory lists exactly its children, joined to it, in sorted order of the joined text |
| Navigator.ListFilesChildren | TorrentPlayer.py:158-163 | every listed entry is a child of the directory or the error line |
| Navigator.SelectableAreChildren | TorrentPlayer.py:283-285 | everything offered for selection is a child of the listed directory |
| Navigator.Directories | TorrentPlayer.py:283 | an entry is kept exactly when it is listed and is a directory; a one-entry listing is kept or dropped whole |
| Navigator.DirectoriesAppend | TorrentPlayer.py:283 | filtering a concatenation concatenates the filtered parts, so the directories keep their listing order |
| Navigator.Videos | TorrentPlayer.py:284 | an entry is kept exactly when it is listed and named `.mp4`/`.avi`/`.mkv` in any case; a one-entry listing is kept or dropped whole |
| Navigator.VideosAppend | TorrentPlayer.py:284 | filtering a concatenation concatenates the filtered parts, so the videos keep their listing order |
| Navigator.Selectable | TorrentPlayer.py:283-285 | an entry is offered exactly when it is listed and is a directory or a video |
| Navigator.SelectableMembers | TorrentPlayer.py:283-285 | an entry is selectable exactly when it is a directory or a video name; a directory named like a video appears twice |
| Navigator.ErrorLineNotSelectable | TorrentPlayer.py:163 | a listing error offers nothing to select |
| Navigator.EndsWithAfterSeparator | TorrentPlayer.py:284 | a suffix test on a joined path is a test on the last name |
| Navigator.IsVideoByName | TorrentPlayer.py:284 | a child is a video exactly when its lowercased name ends with a video suffix |
| Navigator.VideoNameExamples | TorrentPlayer.py:284 | `Movie.MKV` is a video name and `Movie.mkvx` is not |
| Navigator.MoveDown | TorrentPlayer.py:316-317 | Down stays in range, adds one, and wraps from the last row to 0 |
| Navigator.MoveUp | TorrentPlayer.py:318-319 | Up stays in range, subtracts one, and wraps from 0 to the last row |
| Navigator.MoveUpDownInverse | TorrentPlayer.py:316-319 | Up undoes Down and Down undoes Up |
| Playback.Installed | TorrentPlayer.py:198-199 | a player is kept exactly when it is a candidate that exists; one candidate is kept or dropped whole |
| Playback.InstalledAppend | TorrentPlayer.py:198-199 | filtering a concatenation concatenates the filtered parts, so the installed players keep candidate order |
| Playback.TryPlayers | TorrentPlayer.py:197-213 | a winning player is the last one tried and exits 0; no more players are tried than there are candidates |
| Playback.TryPlayersRuns | TorrentPlayer.py:197-223 | every tried player is an installed candidate; each tried before the winner failed; with no winner, every tried player failed and no candidate works |
| Playback.TryPlayersFirstWorking | TorrentPlayer.py:197-213 | the first candidate that exists and exits 0 plays; only the existing candidates before it were tried |
| Playback.TryPlayersNoneWorks | TorrentPlayer.py:197-223 | if none exits 0, every existing candidate is tried, in order, and none plays |
| Playback.PlayVideo | TorrentPlayer.py:166-223 | the loop over the players gives the fallback result |
| Playback.PlayVideoSpec | TorrentPlayer.py:166-223 | a played video plays with a working candidate, the last one tried, after only failing ones; when no player is found, no candidate works and only installed ones were tried |
| Playback.RunPlayers | TorrentPlayer.py:197-223 | the `for` loop over the players gives the fallback's winner and the players it tried |
| Playback.PlayVideoChecksFileFirst | TorrentPlayer.py:177-188 | a missing or unreadable file runs no player; a player runs only for a readable file |
| Playback.OnlySecondWorks | TorrentPlayer.py:197-213 | with only mplayer installed and working, mplayer plays after nothing else was run |
| Playback.NoneInstalled | TorrentPlayer.py:221-223 | with no player installed, nothing is run |
| Session.Step | TorrentPlayer.py:280-331 | one key keeps the selection within the current list |
| Session.Run | TorrentPlayer.py:264-331 | any keys keep the selection within the current list |
| Session.StepInside | TorrentPlayer.py:264-331 | one key keeps `current_dir` within the mount and `all_items` equal to the filtered listing |
| Session.ChoosingInside | TorrentPlayer.py:315-331 | a key in the selection loop keeps the navigation invariant |
| Session.EnterInside | TorrentPlayer.py:320-327 | Enter moves into a listed directory or plays a listed video below the mount |
| Session.EnterChild | TorrentPlayer.py:320-327 | Enter on a selectable child of a directory within the mount keeps the navigation invariant |
| Session.RunInside | TorrentPlayer.py:264-331 | `current_dir` never leaves the mount, whatever keys are pressed |
| Session.BackspaceAtRoot | TorrentPlayer.py:328-331 | at the mount root, backspace and delete change nothing |
| Session.BackspaceBelowRoot | TorrentPlayer.py:328-331 | below the root, they go to the parent, still within the mount |
| Session.NothingSelectable | TorrentPlayer.py:287-295 | with nothing to select, the session goes up one level, or ends at the root |
| Session.EnterDescends | TorrentPlayer.py:320-324 | Enter on a directory lists a directory child of the current one |
| Session.PlayerRuns | TorrentPlayer.py:209 | a playback attempt runs only players |
| Session.ExitActions | TorrentPlayer.py:326 | leaving the loops runs only players |
| Session.Cleanup | TorrentPlayer.py:335-356 | the `finally` block tries exactly one `fusermount -u`, first; `rmtree` runs exactly when fusermount is installed; apart from curses drawing errors, an error escapes exactly when it is not |
| Session.SessionSpec | TorrentPlayer.py:226-356 | the session reports a missing torrent exactly when `<name>.torrent` is absent, and then runs nothing; otherwise it starts with mkdtemp |
| Session.SessionAfter | TorrentPlayer.py:233-356 | once the torrent file is found, the session starts with mkdtemp and does not report a missing torrent |
| Session.TryBlock | TorrentPlayer.py:239-333 | the `try` block (btfs, the mount check, the loops) agrees with the functions giving its actions and how it ends |
| Session.Mounted | TorrentPlayer.py:258-333 | after a successful mount, the actions and the end of the `try` block agree with those functions |
| Session.RunOneKey | TorrentPlayer.py:278 | each `getch` consumes exactly one key |
| Session.Choose | TorrentPlayer.py:297-331 | the selection loop over a non-empty `all_items` agrees with the navigation function; it leaves only to list a directory within the mount (having read a key), to finish, or when the keys run out |
| Session.Browse | TorrentPlayer.py:264-331 | the two nested loops agree with the navigation function |
| Session.PlayTorrent | TorrentPlayer.py:226-356 | the whole session, with its `finally` cleanup, agrees with the session function |
| Session.TrackQuiet | TorrentPlayer.py:239-331 | mounting, checking and playing change no mount directory awaiting an unmount |
| Session.TryActionsQuiet | TorrentPlayer.py:239-331 | the `try` block starts with btfs and neither creates nor unmounts a mount directory |
| Session.MissingTorrent | TorrentPlayer.py:227-231 | a missing `.torrent` file creates no mount directory and runs nothing |
| Session.SessionCleansUp | TorrentPlayer.py:233-356 | mkdtemp and btfs come first; a closed session attempted exactly one `fusermount -u`, so no mount directory still awaits one, with `rmtree` after it unless fusermount is missing, and, apart from curses drawing errors, an exception escapes exactly when btfs or fusermount is missing; a session blocked in `getch` still has its mount directory awaiting an unmount and has attempted no unmount |
| Session.CleansUpAfter | TorrentPlayer.py:233-356 | the same for wherever the navigation loops stop |
| Session.BrowsedOnlyWhenMounted | TorrentPlayer.py:245-258 | browsing happens exactly when btfs exits 0 and the directory is a mount |
| Session.PlayedFileInsideMount | TorrentPlayer.py:320-327 | a played file is a non-directory video strictly below the mount point, played through the fallback |
| TorrentList.TorrentGlob | TorrentPlayer.py:360 | `*.torrent` keeps a listed name exactly when it ends in `.torrent` and does not start with a dot; a one-name listing is kept or dropped whole |
| TorrentList.TorrentGlobAppend | TorrentPlayer.py:360 | globbing a concatenation concatenates the parts, so the names keep directory order |
| TorrentList.StripTorrentSuffix | TorrentPlayer.py:388 | corrected: the name plus `.torrent` is the file name |
| TorrentList.TorrentNameAsWritten | TorrentPlayer.py:388 | as written: the name is shorter than the file name whenever `.torrent` occurs anywhere in it, and is the file name otherwise |
| TorrentList.PickFrom | TorrentPlayer.py:366-390 | with the corrected line-388 suffix strip: a chosen name is the name of a listed file; a pending selection is in range |
| TorrentList.ChosenIsListed | TorrentPlayer.py:359-390 | with the corrected line-388 suffix strip: the chosen torrent's file is in the torrents directory; the list is empty exactly when no name matches |
| TorrentList.ListTorrents | TorrentPlayer.py:359-390 | with the corrected line-388 suffix strip: the selection loop agrees with the selection function |
| TorrentList.AsWrittenAgreesWithoutDots | TorrentPlayer.py:388 | for names with no dot, the replace-all gives the same name as the suffix strip |
| TorrentList.AsWrittenLosesName | TorrentPlayer.py:388 | `a.torrent.torrent` becomes `a`, whose `.torrent` file is a different file |
| Magnet.MagnetLink | search_torrents.py:107 | the link starts with `magnet:?xt=urn:btih:` and the info-hash topic; when neither hash nor name holds `&`, splitting it at `&` gives back the topic and the `dn=` field |
| Magnet.NonEmpty | search_torrents.py:108 | a tracker line is kept exactly when it has text; a one-line list is kept or dropped whole |
| Magnet.NonEmptyAppend | search_torrents.py:108 | filtering a concatenation concatenates the parts, so the tracker lines keep their order |
| Magnet.JoinWithCons | search_torrents.py:118 | joining a first part and the rest puts one `&` between them |
| Magnet.MagnetArgument | search_torrents.py:107-118 | the argument starts with the magnet link and `&`, and is exactly that when no tracker line has text |
| Magnet.ArgumentIsJoin | search_torrents.py:107-118 | the aria2c argument is the `&`-join of the topic, the `dn=` field and the tracker fields |
| Magnet.FieldsFree | search_torrents.py:107-118 | no field of the argument holds `&` when the hash, the name and the trackers do not |
| Magnet.MagnetRoundTrip | search_torrents.py:107-118 | splitting the aria2c argument at `&` gives the topic, the name and the trackers back, or a trailing empty field when no tracker line has text |
| Magnet.RenameTorrentFile | search_torrents.py:89-96 | an existing file moves to the new name and the new path is returned; otherwise nothing changes and `None` is returned; other files are untouched |
| Magnet.RenameBack | search_torrents.py:89-96 | renaming to a free name and back restores the directory |
| Magnet.Aria2Command | search_torrents.py:109-119 | six arguments, saved under `<infohash>.torrent`, ending with the magnet argument |
| Magnet.DownloadMetadata | search_torrents.py:98-135 | no command exactly when the tracker list is empty, else the aria2c command; downloaded exactly when aria2c exits 0; aria2c missing exactly when it is not installed; with aria2c missing or no trackers the directory is unchanged |
| Magnet.MetadataRun | TorrentPlayer_PyQT.py:88-115 | no command exactly when the tracker list is empty, else the same aria2c command; a reported success means aria2c exited 0 and `<name>.torrent` exists; no report exactly when aria2c is missing or exits 0 without the saved file, so that `os.rename` raises |
| Magnet.NoTrackersNoCommand | search_torrents.py:100-105 | with no tracker list, no command is built or run and no file changes, in both front ends |
| Magnet.RenamedOnlyAfterSuccess | search_torrents.py:122-135 | `<name>.torrent` receives the saved metadata after aria2c succeeds, and is untouched otherwise |
| Magnet.FrontEndsAgree | TorrentPlayer_PyQT.py:88-115 | the Qt thread builds the same command as the curses tool and leaves the same directory whenever it reports; its success and escaping errors match the curses outcome |
| Search.ParamsFor | search_torrents.py:17-25 | `q` and `size` are always sent; `after` exactly when it is truthy |
| Search.SearchParams | search_torrents.py:19-25 | the dict built in place is those parameters |
| Search.Fetch | search_torrents.py:27-37 | a failed request gives `(None, None)`; a reply gives its own torrents and `next` |
| Search.LastPagePrepend | search_torrents.py:159-167 | a request updates the latest page |
| Search.RunGood | search_torrents.py:151-177 | the selection stays clamped to the page, `current_page` stays at least 1 and is the page of the latest request |
| Search.Run | search_torrents.py:151-177 | when the request failed (`torrents` is `None`), the first `draw_menu` raises `TypeError` and nothing is requested; an empty page draws nothing and does not raise; apart from curses drawing errors, the browser quits only on a key read |
| Search.EffectsPerKey | search_torrents.py:151-177 | each key makes at most one request |
| Search.MainSpec | search_torrents.py:146-177 | the first request is for page 1 and sends no `after` |
| Search.MainEffectsPerKey | search_torrents.py:146-177 | `main` makes at most one request per key, plus the first |
| Search.MainGood | search_torrents.py:146-177 | the same from the first request on page 1 |
| Search.Clamped | search_torrents.py:155-158 | Up at the top row and Down at the bottom row do nothing |
| Search.NextPage | search_torrents.py:159-162 | Right with a truthy `next` requests the next page with `after = next`, resets the selection to 0 and counts one page more |
| Search.PreviousPage | search_torrents.py:163-167 | Left requests `after = rowid - 25`, goes back one page and resets the selection; an `after` of 0 is not sent |
| Search.SearchMain | search_torrents.py:138-177 | the loop of `main` agrees with the browser function |
| QtMount.Release | TorrentPlayer_PyQT.py:328-336 | unmounting starts with fusermount and removes the directory exactly when fusermount succeeded |
| QtMount.FileListWidget.constructor | TorrentPlayer_PyQT.py:297 | a new widget has no mount |
| QtMount.FileListWidget.UnmountTorrent | TorrentPlayer_PyQT.py:328-336 | no-op without a mount; otherwise fusermount then, only on success, rmtree; `mountpoint` ends `None` |
| QtMount.FileListWidget.MountAndListTorrent | TorrentPlayer_PyQT.py:311-326 | the previous mount is released first; a failed mount or `ismount` check releases the new one; at most one mount directory awaits an unmount |
| QtMount.MainWindow.CloseEvent | TorrentPlayer_PyQT.py:176-178 | closing the window makes the widget forget its mount, and an unmount was attempted for every mount directory it made |
| QtMount.OpenTwoThenClose | TorrentPlayer_PyQT.py:311-336 | opening two torrents and closing: the first mount is released before the second is made, and an unmount was attempted for both mount directories, even when fusermount fails |

## Left out

- Drawing, `time.sleep` and colours of the curses screens, and all Qt widgets, layouts and message boxes. The warnings that Qt shows on errors are not recorded.
- Errors raised by curses `addstr` are not modelled. Such an error comes from more items than the window has rows (TorrentPlayer.py:300-308 and 370-375), or from a line wider than the window. Examples are the 113-character help line at search_torrents.py:67 and the cleanup's own error messages (TorrentPlayer.py:344-345, which would then skip `rmtree`). `raised` counts only a missing btfs or fusermount.
- The text of a listing error always quotes the path with `'`. Python's `OSError` message switches to `"` for a path that contains `'`. This changes no selection, since an error line is never a directory or a video.
- Navigator.IsDir: an error line is never a directory. `os.path.isdir` at TorrentPlayer.py:283 would test the error text as a path relative to the working directory; the model assumes no such path exists.
- QtMount: a failed fusermount leaves the btfs mount and its directory in place (TorrentPlayer_PyQT.py:330-336). The model records only that the unmount was attempted and that the widget forgot its mount.
- HTTP: `requests.get`, `fetch_trackers` and the search service. Their results are inputs: a tracker list (empty on error) and a reply per request.
- External processes and OS queries are inputs and recorded actions: btfs, fusermount, aria2c, the players, `os.path.exists`, `ismount`, `access`, `isdir`, `mkdtemp`, `rmtree`, `os.rename`. The mount directory that `mkdtemp` makes is a parameter.
- `os.path.abspath` in `play_video` is the identity on the model's absolute paths. The file size display is not modelled.
- `shlex.quote` and the shell command text of a player run. A run is recorded as the player and the file.
- Strings.Lower: only ASCII letters are lowered; Python's Unicode case mapping is not modelled.
- `PlaylistWidget.load_content` (an `os.walk` traversal) is one `LoadContent` action; `save_torrent_info` (JSON output) is one `Save` effect.
- Search.Run: the 'd' key records a `Download` effect and the loop goes on. An aria2c that is not installed makes `download_metadata` raise, which ends `main`; that is modelled per call in `Magnet.DownloadMetadata` but not in the browser. A failing `save_torrent_info` is not modelled either.
- Search.Run: torrents are records with a name, an info-hash and a row id; a reply whose JSON lacks one of these keys is not modelled.
- Session.PlayTorrent: a key sequence that runs out leaves the session blocked in `getch` (`AwaitingKey`); the `finally` block has then not run yet.
- The main menus of `TorrentPlayer.py` (its lines 393-460) and the Qt windows other than the mount lifecycle. This includes the copies of the search helpers at the top of `TorrentPlayer.py`, which differ from `search_torrents.py` only in drawing.
- uptones.py is not part of this model: it is floating-point audio resampling unrelated to the player.
- QThread signals and concurrency. Only the sequential body of `MetadataDownloadThread.run` is modelled.

## Findings

| source | as written | input that shows it | evidently intended | confidence | as-written member | corrected member |
|---|---|---|---|---|---|---|
| TorrentPlayer.py:388 | `.replace('.torrent', '')` removes every occurrence of `.torrent` in the file name | `a.torrent.torrent` becomes `a`, so `play_torrent` opens `a.torrent`, a different file | strip only the `.torrent` suffix, so the name leads back to the selected file | not executed | TorrentList.AsWrittenLosesName | TorrentList.StripTorrentSuffix |
| TorrentPlayer.py:28 | `name[:max_length - len(ext) - 3]` with a negative bound counts from the end of the name; TorrentPlayer_PyQT.py:36 has the same slice | `truncate_filename("abc.torrent", 9)` gives `a....torrent`, longer than the input | keep no name characters when the extension leaves no room | not executed | Truncate.TruncateFilenameCanGrow | Truncate.TruncateFilename |
