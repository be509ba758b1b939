/**
 * The display helpers `truncate_string` and `truncate_filename`. The curses
 * player and the Qt player define them identically.
 */
module Truncate {
  import opened Strings

  /**
   * A string that is longer than `width` loses its tail to an ellipsis. The
   * cut is Python's `s[:width-3]`, so for `width < 3` it counts from the end.
   */
  function TruncateString(s: string, width: int): (r: string)
    ensures |s| <= width ==> r == s
    ensures |s| > width >= 3 ==>
      |r| == width && r[..width - 3] == s[..width - 3] && r[width - 3..] == "..."
    ensures |s| > width && width < 3 ==>
      |r| == Max(3, |s| + width) && r[..|r| - 3] <= s && EndsWith(r, "...")
  {
    if |s| > width then PyPrefix(s, width - 3) + "..." else s
  }

  /** Index of the last `c` in `s`, or -1, like `str.rfind`. */
  function LastIndexOf(s: string, c: char): (k: int)
    ensures -1 <= k < |s|
    ensures k >= 0 ==> s[k] == c
    ensures forall j :: k < j < |s| ==> s[j] != c
  {
    if s == [] then -1
    else if s[|s| - 1] == c then |s| - 1
    else LastIndexOf(s[..|s| - 1], c)
  }

  /**
   * The extension of `p` starts at index `k`: `k` is the last dot of `p`, no
   * separator follows it, and the part of the last path component in front of
   * it holds a character other than a dot.
   */
  predicate ExtensionAt(p: string, k: int)
  {
    0 <= k < |p| && p[k] == '.' && '.' !in p[k + 1..] && '/' !in p[k..]
    && exists j :: 0 <= j < k && p[j] != '.' && '/' !in p[j..k]
  }

  /** An extension starts at the last dot, after the last separator, with a non-dot between them. */
  lemma ExtensionAtLastDot(p: string, k: int)
    requires ExtensionAt(p, k)
    ensures k == LastIndexOf(p, '.') && LastIndexOf(p, '/') < k
    ensures exists j :: LastIndexOf(p, '/') < j < k && p[j] != '.'
  {
    forall i | k < i < |p| ensures p[i] != '.' {
      assert p[i] == p[k + 1..][i - k - 1];
    }
    forall i | k <= i < |p| ensures p[i] != '/' {
      assert p[i] == p[k..][i - k];
    }
    var j :| 0 <= j < k && p[j] != '.' && '/' !in p[j..k];
    forall i | j <= i < k ensures p[i] != '/' {
      assert p[i] == p[j..k][i - j];
    }
  }

  /**
   * `os.path.splitext`: the extension starts at the last dot of the last path
   * component, unless every character before that dot in the component is a dot.
   */
  function Splitext(p: string): (r: (string, string))
    ensures r.0 + r.1 == p
    ensures r.1 != [] <==> exists k :: ExtensionAt(p, k)
    ensures forall k :: ExtensionAt(p, k) ==> r.0 == p[..k] && r.1 == p[k..]
  {
    var dot := LastIndexOf(p, '.');
    var sep := LastIndexOf(p, '/');
    if dot > sep && exists j :: sep < j < dot && p[j] != '.' then
      assert ExtensionAt(p, dot) by {
        var j :| sep < j < dot && p[j] != '.';
        assert '/' !in p[j..dot] by {
          forall i | 0 <= i < |p[j..dot]| ensures p[j..dot][i] != '/' {
            assert p[j..dot][i] == p[j + i];
          }
        }
        assert '/' !in p[dot..] by {
          forall i | 0 <= i < |p[dot..]| ensures p[dot..][i] != '/' {
            assert p[dot..][i] == p[dot + i];
          }
        }
        var after := p[dot + 1..];
        assert '.' !in after by {
          forall i | 0 <= i < |after| ensures after[i] != '.' {
            assert after[i] == p[dot + 1 + i];
          }
        }
      }
      assert forall k :: ExtensionAt(p, k) ==> k == dot by {
        forall k | ExtensionAt(p, k) ensures k == dot {
          ExtensionAtLastDot(p, k);
        }
      }
      (p[..dot], p[dot..])
    else
      assert forall k :: !ExtensionAt(p, k) by {
        forall k | ExtensionAt(p, k) ensures false {
          ExtensionAtLastDot(p, k);
        }
      }
      (p, "")
  }

  /**
   * `truncate_filename` as written: keeps a prefix of the name, an ellipsis and
   * the extension. The prefix is `name[:max_length - len(ext) - 3]`, which counts
   * from the end when the extension leaves no room.
   */
  function TruncateFilenameAsWritten(filename: string, maxLength: int): (r: string)
    ensures |filename| <= maxLength ==> r == filename
    ensures |filename| > maxLength ==>
      var (name, ext) := Splitext(filename);
      |r| >= |ext| + 3 && r[|r| - |ext|..] == ext && r[|r| - |ext| - 3..|r| - |ext|] == "..."
      && r[..|r| - |ext| - 3] <= name
    ensures |filename| > maxLength >= |Splitext(filename).1| + 3 ==> |r| == maxLength
  {
    if |filename| > maxLength then
      var (name, ext) := Splitext(filename);
      PyPrefix(name, maxLength - |ext| - 3) + "..." + ext
    else
      filename
  }

  /**
   * When the extension leaves no room (`max_length < len(ext) + 3`) the slice
   * bound is negative and keeps most of the name. With `len(ext) < max_length`
   * and a name of at least three characters, the result is longer than the
   * input; for a smaller `max_length` it can come out shorter.
   */
  lemma TruncateFilenameCanGrow(filename: string, maxLength: int)
    requires |filename| > maxLength
    requires |Splitext(filename).1| < maxLength < |Splitext(filename).1| + 3
    requires |Splitext(filename).0| >= 3
    ensures |TruncateFilenameAsWritten(filename, maxLength)| > |filename|
  {
  }

  /** `rfind` finds the last occurrence. */
  lemma {:induction false} LastIndexOfIs(s: string, c: char, k: int)
    requires -1 <= k < |s| && (k >= 0 ==> s[k] == c)
    requires forall j :: k < j < |s| ==> s[j] != c
    ensures LastIndexOf(s, c) == k
    decreases |s|
  {
    if s != [] && s[|s| - 1] != c {
      LastIndexOfIs(s[..|s| - 1], c, k);
    }
  }

  /** A torrent file name splits at its last dot. */
  lemma SplitextExample()
    ensures Splitext("abc.torrent") == ("abc", ".torrent")
  {
    var p := "abc.torrent";
    LastIndexOfIs(p, '/', -1);
    LastIndexOfIs(p, '.', 3);
    assert p[0] != '.';
    assert p[..3] == "abc" && p[3..] == ".torrent";
  }

  /** In a 9-column terminal the torrent list shows "abc.torrent" as "a....torrent". */
  lemma TruncateFilenameGrowsExample()
    ensures TruncateFilenameAsWritten("abc.torrent", 9) == "a....torrent"
  {
    SplitextExample();
    assert PyPrefix("abc", -2) == "a";
  }

  /**
   * `truncate_filename` with the name prefix clamped at zero characters: the
   * result is as short as the kept extension allows, and never longer than the
   * input when the name has at least three characters.
   */
  function TruncateFilename(filename: string, maxLength: int): (r: string)
    ensures |filename| <= maxLength ==> r == filename
    ensures |filename| > maxLength ==>
      var (name, ext) := Splitext(filename);
      |r| == Max(maxLength, |ext| + 3)
      && r[|r| - |ext|..] == ext && r[|r| - |ext| - 3..|r| - |ext|] == "..."
      && r[..|r| - |ext| - 3] <= name
      && (|name| >= 3 ==> |r| <= |filename|)
  {
    if |filename| > maxLength then
      var (name, ext) := Splitext(filename);
      PyPrefix(name, Max(0, maxLength - |ext| - 3)) + "..." + ext
    else
      filename
  }

  /** The two agree whenever the extension leaves room for the ellipsis. */
  lemma TruncateFilenameAgrees(filename: string, maxLength: int)
    requires maxLength >= |Splitext(filename).1| + 3
    ensures TruncateFilename(filename, maxLength) == TruncateFilenameAsWritten(filename, maxLength)
  {
  }
}
