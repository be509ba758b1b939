/**
 * Listing and selection inside the mounted torrent (`list_files` and the
 * filtering and selection steps of `play_torrent` and `list_torrents`).
 */
module Navigator {
  import opened Wrappers
  import opened Strings
  import opened Paths

  /** A node of the mounted tree; a directory lists its children in `os.listdir` order. */
  datatype Node =
    | File(readable: bool)
    | Dir(readable: bool, children: seq<(string, Node)>)

  /** The torrent's tree as btfs exposes it under the mount point `root`. */
  datatype Mount = Mount(root: Path, tree: Node)

  function ChildNamed(children: seq<(string, Node)>, name: string): Option<Node>
  {
    if children == [] then None
    else if children[0].0 == name then Some(children[0].1)
    else ChildNamed(children[1..], name)
  }

  function LookupIn(n: Node, rel: Path): Option<Node>
    decreases rel
  {
    if rel == [] then Some(n)
    else match n
      case File(_) => None
      case Dir(_, children) =>
        match ChildNamed(children, rel[0])
        case None => None
        case Some(c) => LookupIn(c, rel[1..])
  }

  /** What lies at `p`; nothing outside the mounted tree is visible to the model. */
  function Lookup(m: Mount, p: Path): Option<Node>
  {
    if Within(m.root, p) then LookupIn(m.tree, p[|m.root|..]) else None
  }

  /** An element of the `files` list: a joined child path, or the error line of a failed listing. */
  datatype Entry = Item(path: Path) | ErrorLine(text: string)

  function Text(e: Entry): string
  {
    match e
    case Item(p) => Render(p)
    case ErrorLine(t) => t
  }

  function Names(children: seq<(string, Node)>): (r: seq<string>)
    ensures |r| == |children|
    ensures forall i :: 0 <= i < |r| ==> r[i] == children[i].0
  {
    seq(|children|, i requires 0 <= i < |children| => children[i].0)
  }

  /** The text `str(OSError)` gives, after the prefix `list_files` puts in front of it. */
  function ListingError(errno: string, reason: string, dir: Path): string
  {
    "Error listing directory: [Errno " + errno + "] " + reason + ": '" + Render(dir) + "'"
  }

  /**
   * `list_files`: the sorted joined children of `dir`, or a one-element list
   * holding the error text. Sorting the names sorts the joined paths, which
   * share the prefix `dir/` (see `ListFilesSorted`).
   */
  function ListFiles(m: Mount, dir: Path): (r: seq<Entry>)
    ensures Listable(m, dir) ==>
      |r| == |Lookup(m, dir).value.children| && forall e :: e in r ==> e.Item?
    ensures !Listable(m, dir) ==>
      |r| == 1 && r[0].ErrorLine? && "Error listing directory: " <= r[0].text
  {
    match Lookup(m, dir)
    case None => [ErrorLine(ListingError("2", "No such file or directory", dir))]
    case Some(File(_)) => [ErrorLine(ListingError("20", "Not a directory", dir))]
    case Some(Dir(readable, children)) =>
      if !readable then [ErrorLine(ListingError("13", "Permission denied", dir))]
      else
        var names := Sort(Names(children));
        assert |names| == |multiset(names)| == |multiset(Names(children))|;
        ChildEntries(dir, names)
  }

  /** `os.listdir` succeeds: `dir` is a readable directory of the mounted tree. */
  predicate Listable(m: Mount, dir: Path)
  {
    Lookup(m, dir).Some? && Lookup(m, dir).value.Dir? && Lookup(m, dir).value.readable
  }

  /** `[os.path.join(dir, f) for f in names]`. */
  function ChildEntries(dir: Path, names: seq<string>): (r: seq<Entry>)
    ensures |r| == |names|
    ensures forall i :: 0 <= i < |r| ==> r[i] == Item(Join(dir, names[i]))
  {
    seq(|names|, i requires 0 <= i < |names| => Item(Join(dir, names[i])))
  }

  /** The last name of each child entry (error lines give the empty string). */
  function Basenames(es: seq<Entry>): (r: seq<string>)
    ensures |r| == |es|
  {
    if es == [] then []
    else [if es[0].Item? && es[0].path != [] then es[0].path[|es[0].path| - 1] else ""] + Basenames(es[1..])
  }

  /** `e` names a child of `dir`. */
  predicate ChildOf(dir: Path, e: Entry)
  {
    e.Item? && e.path != [] && Dirname(e.path) == dir
  }

  lemma {:induction false} BasenamesOfChildren(dir: Path, names: seq<string>)
    ensures Basenames(ChildEntries(dir, names)) == names
  {
    if names != [] {
      assert ChildEntries(dir, names)[1..] == ChildEntries(dir, names[1..]);
      BasenamesOfChildren(dir, names[1..]);
    }
  }

  /**
   * A readable directory lists exactly its children, each joined to `dir`,
   * ordered by the text of the joined path.
   */
  lemma ListFilesSorted(m: Mount, dir: Path, children: seq<(string, Node)>)
    requires Lookup(m, dir) == Some(Dir(true, children))
    ensures forall e :: e in ListFiles(m, dir) ==> ChildOf(dir, e)
    ensures multiset(Basenames(ListFiles(m, dir))) == multiset(Names(children))
    ensures forall i, j :: 0 <= i < j < |ListFiles(m, dir)| ==>
              !Less(Text(ListFiles(m, dir)[j]), Text(ListFiles(m, dir)[i]))
  {
    var names := Sort(Names(children));
    var r := ListFiles(m, dir);
    assert r == ChildEntries(dir, names);
    forall e | e in r ensures ChildOf(dir, e) {
      var i :| 0 <= i < |r| && r[i] == e;
      assert Join(dir, names[i])[..|dir|] == dir;
    }
    BasenamesOfChildren(dir, names);
    var pre := if dir == [] then "" else Render(dir);
    forall i, j | 0 <= i < j < |r| ensures !Less(Text(r[j]), Text(r[i])) {
      RenderJoin(dir, names[i]);
      RenderJoin(dir, names[j]);
      assert Text(r[i]) == (pre + "/") + names[i];
      assert Text(r[j]) == (pre + "/") + names[j];
      LessCommonPrefix(pre + "/", names[j], names[i]);
    }
  }

  /** Every entry of any listing of `dir` is a child of `dir` or an error line. */
  lemma ListFilesChildren(m: Mount, dir: Path)
    ensures forall e :: e in ListFiles(m, dir) ==> ChildOf(dir, e) || e.ErrorLine?
  {
    match Lookup(m, dir)
    case None =>
    case Some(File(_)) =>
    case Some(Dir(readable, children)) =>
      if readable { ListFilesSorted(m, dir, children); }
  }

  /** Everything the selection list offers is a child of the listed directory. */
  lemma SelectableAreChildren(m: Mount, dir: Path)
    ensures forall e :: e in Selectable(m, ListFiles(m, dir)) ==> ChildOf(dir, e)
  {
    match Lookup(m, dir)
    case None =>
      ErrorLineNotSelectable(m, "2", "No such file or directory", dir);
    case Some(File(_)) =>
      ErrorLineNotSelectable(m, "20", "Not a directory", dir);
    case Some(Dir(readable, children)) =>
      if readable {
        ListFilesSorted(m, dir, children);
        forall e | e in Selectable(m, ListFiles(m, dir)) ensures ChildOf(dir, e) {
          SelectableMembers(m, ListFiles(m, dir), e);
        }
      } else {
        ErrorLineNotSelectable(m, "13", "Permission denied", dir);
      }
  }

  /** `os.path.isdir`: only a path that names a directory of the mounted tree. */
  predicate IsDir(m: Mount, e: Entry)
  {
    e.Item? && Lookup(m, e.path).Some? && Lookup(m, e.path).value.Dir?
  }

  const VideoSuffixes: seq<string> := [".mp4", ".avi", ".mkv"]

  /** `f.lower().endswith(('.mp4', '.avi', '.mkv'))`. */
  predicate IsVideo(e: Entry)
  {
    EndsWithAny(Lower(Text(e)), VideoSuffixes)
  }

  function Directories(m: Mount, files: seq<Entry>): (r: seq<Entry>)
    ensures forall e :: e in r <==> e in files && IsDir(m, e)
    ensures |files| == 1 ==> r == if IsDir(m, files[0]) then files else []
  {
    if files == [] then []
    else (if IsDir(m, files[0]) then [files[0]] else []) + Directories(m, files[1..])
  }

  function Videos(files: seq<Entry>): (r: seq<Entry>)
    ensures forall e :: e in r <==> e in files && IsVideo(e)
    ensures |files| == 1 ==> r == if IsVideo(files[0]) then files else []
  {
    if files == [] then []
    else (if IsVideo(files[0]) then [files[0]] else []) + Videos(files[1..])
  }

  /** The directories of a listing in two parts are those of the first part, then those of the second. */
  lemma {:induction false} DirectoriesAppend(m: Mount, a: seq<Entry>, b: seq<Entry>)
    ensures Directories(m, a + b) == Directories(m, a) + Directories(m, b)
    decreases |a|
  {
    if a == [] {
      assert a + b == b;
    } else {
      var head := if IsDir(m, a[0]) then [a[0]] else [];
      assert (a + b)[0] == a[0] && (a + b)[1..] == a[1..] + b;
      DirectoriesAppend(m, a[1..], b);
      calc {
        Directories(m, a + b);
        head + Directories(m, a[1..] + b);
        head + (Directories(m, a[1..]) + Directories(m, b));
        (head + Directories(m, a[1..])) + Directories(m, b);
      }
    }
  }

  /** The videos of a listing in two parts are those of the first part, then those of the second. */
  lemma {:induction false} VideosAppend(a: seq<Entry>, b: seq<Entry>)
    ensures Videos(a + b) == Videos(a) + Videos(b)
    decreases |a|
  {
    if a == [] {
      assert a + b == b;
    } else {
      var head := if IsVideo(a[0]) then [a[0]] else [];
      assert (a + b)[0] == a[0] && (a + b)[1..] == a[1..] + b;
      VideosAppend(a[1..], b);
      calc {
        Videos(a + b);
        head + Videos(a[1..] + b);
        head + (Videos(a[1..]) + Videos(b));
        (head + Videos(a[1..])) + Videos(b);
      }
    }
  }

  /** `all_items`: the directories in listing order, then the video files in listing order. */
  function Selectable(m: Mount, files: seq<Entry>): (r: seq<Entry>)
    ensures forall e :: e in r <==> e in files && (IsDir(m, e) || IsVideo(e))
  {
    Directories(m, files) + Videos(files)
  }

  lemma SelectableMembers(m: Mount, files: seq<Entry>, e: Entry)
    ensures e in Selectable(m, files) <==> e in files && (IsDir(m, e) || IsVideo(e))
    ensures (e in files && IsDir(m, e) && IsVideo(e)) ==>
              multiset(Selectable(m, files))[e] >= 2
  {
    if e in files && IsDir(m, e) && IsVideo(e) {
      assert e in Directories(m, files) && e in Videos(files);
      assert multiset(Selectable(m, files)) == multiset(Directories(m, files)) + multiset(Videos(files));
    }
  }

  /** The one entry a failed listing holds is never selectable. */
  lemma ErrorLineNotSelectable(m: Mount, errno: string, reason: string, dir: Path)
    ensures Selectable(m, [ErrorLine(ListingError(errno, reason, dir))]) == []
  {
    var text := ListingError(errno, reason, dir);
    var e := ErrorLine(text);
    var front := "Error listing directory: [Errno " + errno + "] " + reason + ": '" + Render(dir);
    assert text == front + "'";
    var t := Lower(Text(e));
    assert t[|t| - 1] == '\'';
    forall i | 0 <= i < |VideoSuffixes| ensures !EndsWith(t, VideoSuffixes[i]) {
      var s := VideoSuffixes[i];
      assert s[|s| - 1] != '\'';
    }
    assert !IsVideo(e);
    assert !IsDir(m, e);
    assert Directories(m, [e]) == [];
    assert Videos([e]) == [];
  }

  lemma EndsWithAfterSeparator(x: string, y: string, suffix: string)
    requires '/' !in suffix
    ensures EndsWith(x + "/" + y, suffix) <==> EndsWith(y, suffix)
  {
    var s := x + "/" + y;
    if |suffix| <= |y| {
      assert s[|s| - |suffix|..] == y[|y| - |suffix|..];
    } else if |suffix| <= |s| {
      assert s[|s| - |suffix|..][|suffix| - |y| - 1] == '/';
    }
  }

  /** The video test on a joined path looks only at the child's own name. */
  lemma IsVideoByName(dir: Path, name: string)
    ensures IsVideo(Item(Join(dir, name))) <==> EndsWithAny(Lower(name), VideoSuffixes)
  {
    RenderJoin(dir, name);
    var pre := if dir == [] then "" else Render(dir);
    LowerAppend(pre + "/", name);
    LowerAppend(pre, "/");
    assert Lower("/") == "/";
    assert Lower(Text(Item(Join(dir, name)))) == Lower(pre) + "/" + Lower(name);
    forall i | 0 <= i < |VideoSuffixes|
      ensures EndsWith(Lower(pre) + "/" + Lower(name), VideoSuffixes[i]) <==> EndsWith(Lower(name), VideoSuffixes[i])
    {
      EndsWithAfterSeparator(Lower(pre), Lower(name), VideoSuffixes[i]);
    }
  }

  /** The match ignores case and needs the whole extension: `Movie.MKV` is in, `Movie.mkvx` is out. */
  lemma VideoNameExamples()
    ensures EndsWithAny(Lower("Movie.MKV"), VideoSuffixes)
    ensures !EndsWithAny(Lower("Movie.mkvx"), VideoSuffixes)
  {
    assert Lower("Movie.MKV") == "movie.mkv";
    assert EndsWith("movie.mkv", VideoSuffixes[2]);
    var l := Lower("Movie.mkvx");
    assert l[|l| - 1] == 'x';
    forall i | 0 <= i < |VideoSuffixes| ensures !EndsWith(l, VideoSuffixes[i]) {
      var s := VideoSuffixes[i];
      assert s[|s| - 1] != 'x';
    }
  }

  /** Down: `(selected_index + 1) % len(all_items)`. */
  function MoveDown(i: int, n: int): (r: int)
    requires n > 0
    ensures 0 <= r < n
    ensures 0 <= i < n - 1 ==> r == i + 1
    ensures i == n - 1 ==> r == 0
  {
    (i + 1) % n
  }

  /** Up: `(selected_index - 1) % len(all_items)`; Python's `%` is never negative here. */
  function MoveUp(i: int, n: int): (r: int)
    requires n > 0
    ensures 0 <= r < n
    ensures 0 < i < n ==> r == i - 1
    ensures i == 0 ==> r == n - 1
  {
    (i - 1) % n
  }

  /** Up and Down undo each other on every valid index. */
  lemma MoveUpDownInverse(i: int, n: int)
    requires 0 <= i < n
    ensures MoveUp(MoveDown(i, n), n) == i
    ensures MoveDown(MoveUp(i, n), n) == i
  {
  }
}
