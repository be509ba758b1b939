/**
 * Absolute paths as sequences of names: `["tmp", "btplay-x1"]` is `/tmp/btplay-x1`.
 * `os.path.join` appends a name and `os.path.dirname` drops the last one.
 */
module Paths {
  import opened Strings

  type Path = seq<string>

  /** The path as the source prints and compares it. */
  function Render(p: Path): (r: string)
    ensures |r| >= 1 && r[0] == '/'
  {
    "/" + JoinWith(p, '/')
  }

  /** `os.path.join(dir, name)` for a name that holds no separator. */
  function Join(dir: Path, name: string): (r: Path)
    ensures |r| == |dir| + 1 && dir <= r && r[|dir|] == name
  {
    dir + [name]
  }

  /** `os.path.dirname`; the parent of `/` is `/`. */
  function Dirname(p: Path): (r: Path)
    ensures p != [] ==> Join(r, p[|p| - 1]) == p
    ensures p == [] ==> r == []
  {
    if p == [] then [] else p[..|p| - 1]
  }

  /** `p` is `root` or lies below it. */
  predicate Within(root: Path, p: Path)
  {
    root <= p
  }

  /** Going up from anything strictly below `root` stays within `root`. */
  lemma DirnameStaysWithin(root: Path, p: Path)
    requires Within(root, p) && p != root
    ensures Within(root, Dirname(p)) && |Dirname(p)| == |p| - 1
  {
  }

  lemma {:induction false} JoinWithSnoc(parts: seq<string>, name: string, sep: char)
    requires parts != []
    ensures JoinWith(parts + [name], sep) == JoinWith(parts, sep) + [sep] + name
  {
    if |parts| == 1 {
      assert parts + [name] == [parts[0], name];
    } else {
      assert (parts + [name])[1..] == parts[1..] + [name];
      JoinWithSnoc(parts[1..], name, sep);
    }
  }

  /** The text of a child path ends with a separator and the child's name. */
  lemma RenderJoin(dir: Path, name: string)
    ensures Render(Join(dir, name)) == (if dir == [] then "" else Render(dir)) + "/" + name
  {
    if dir != [] { JoinWithSnoc(dir, name, '/'); }
  }
}
