/** Python string operations the core relies on, over `seq<char>`. */
module Strings {

  function Min(a: int, b: int): int { if a <= b then a else b }
  function Max(a: int, b: int): int { if a <= b then b else a }

  /** Python's `s[:k]`: a negative bound counts from the end; both ends are clamped. */
  function PyPrefix(s: string, k: int): (r: string)
    ensures r <= s
    ensures 0 <= k ==> |r| == Min(k, |s|)
    ensures k < 0 ==> |r| == Max(0, |s| + k)
  {
    if k >= |s| then s
    else if k >= 0 then s[..k]
    else if |s| + k >= 0 then s[..|s| + k]
    else []
  }

  /** Python's `s.endswith(suffix)`. */
  predicate EndsWith(s: string, suffix: string)
  {
    |suffix| <= |s| && s[|s| - |suffix|..] == suffix
  }

  /** Python's `s.endswith(t)` for a tuple `t` of suffixes. */
  predicate EndsWithAny(s: string, suffixes: seq<string>)
  {
    exists i :: 0 <= i < |suffixes| && EndsWith(s, suffixes[i])
  }

  /** `str.lower()` restricted to ASCII letters. */
  function LowerChar(c: char): char
  {
    if 'A' <= c <= 'Z' then (c as int + 32) as char else c
  }

  /** `str.lower()`: upper-case ASCII letters move down by 32, every other character is kept. */
  function Lower(s: string): (r: string)
    ensures |r| == |s|
    ensures forall i :: 0 <= i < |s| && 'A' <= s[i] <= 'Z' ==> r[i] as int == s[i] as int + 32
    ensures forall i :: 0 <= i < |s| && !('A' <= s[i] <= 'Z') ==> r[i] == s[i]
    ensures forall i :: 0 <= i < |r| ==> !('A' <= r[i] <= 'Z')
  {
    seq(|s|, i requires 0 <= i < |s| => LowerChar(s[i]))
  }

  lemma LowerAppend(a: string, b: string)
    ensures Lower(a + b) == Lower(a) + Lower(b)
  {
    assert forall i :: 0 <= i < |a + b| ==> Lower(a + b)[i] == (Lower(a) + Lower(b))[i];
  }

  /** `sep.join(parts)` for a one-character separator. */
  function JoinWith(parts: seq<string>, sep: char): (r: string)
    ensures parts == [] ==> r == []
    ensures |parts| == 1 ==> r == parts[0]
  {
    if parts == [] then []
    else if |parts| == 1 then parts[0]
    else parts[0] + [sep] + JoinWith(parts[1..], sep)
  }

  /** Python's `s.split(sep)` for a one-character separator: never empty. */
  function Split(s: string, sep: char): (r: seq<string>)
    ensures |r| >= 1
    ensures forall i :: 0 <= i < |r| ==> sep !in r[i]
    decreases |s|
  {
    if sep !in s then [s]
    else
      var k := IndexOf(s, sep);
      [s[..k]] + Split(s[k + 1..], sep)
  }

  /** Index of the first occurrence of `c` in `s`. */
  function IndexOf(s: string, c: char): (k: nat)
    requires c in s
    ensures k < |s| && s[k] == c && c !in s[..k]
  {
    if s[0] == c then 0 else 1 + IndexOf(s[1..], c)
  }

  /** The first occurrence is where `c` stands with no `c` before it. */
  lemma {:induction false} IndexOfIs(s: string, c: char, k: nat)
    requires k < |s| && s[k] == c
    requires forall i :: 0 <= i < k ==> s[i] != c
    ensures IndexOf(s, c) == k
  {
    if k > 0 {
      IndexOfIs(s[1..], c, k - 1);
    }
  }

  /** Splitting a join gives back the parts when no part holds the separator. */
  lemma {:induction false} SplitJoin(parts: seq<string>, sep: char)
    requires |parts| >= 1
    requires forall i :: 0 <= i < |parts| ==> sep !in parts[i]
    ensures Split(JoinWith(parts, sep), sep) == parts
  {
    if |parts| > 1 {
      var first, rest := parts[0], JoinWith(parts[1..], sep);
      var s := JoinWith(parts, sep);
      assert s == first + [sep] + rest;
      assert sep !in first by { assert 0 <= 0 < |parts|; }
      forall i | 0 <= i < |first| ensures s[i] != sep {
        assert s[i] == first[i];
      }
      IndexOfIs(s, sep, |first|);
      var k := IndexOf(s, sep);
      assert s[..k] == first && s[k + 1..] == rest;
      forall i | 0 <= i < |parts[1..]| ensures sep !in parts[1..][i] {
        assert parts[1..][i] == parts[i + 1];
      }
      SplitJoin(parts[1..], sep);
      assert Split(s, sep) == [first] + parts[1..];
    }
  }

  /** Python's `s.replace(pattern, replacement)`: every non-overlapping occurrence, left to right. */
  function ReplaceAll(s: string, pattern: string, replacement: string): (r: string)
    requires |pattern| > 0
    ensures !Occurs(s, pattern) ==> r == s
    ensures |replacement| <= |pattern| ==> |r| <= |s|
    ensures Occurs(s, pattern) && |replacement| < |pattern| ==> |r| < |s|
    decreases |s|
  {
    if |s| < |pattern| then s
    else if s[..|pattern|] == pattern then
      assert OccursAt(s, pattern, 0);
      replacement + ReplaceAll(s[|pattern|..], pattern, replacement)
    else
      var t := s[1..];
      assert !Occurs(s, pattern) ==> !Occurs(t, pattern) by {
        if Occurs(t, pattern) {
          var k :| 0 <= k <= |t| - |pattern| && OccursAt(t, pattern, k);
          assert s[k + 1..k + 1 + |pattern|] == t[k..k + |pattern|];
          assert OccursAt(s, pattern, k + 1);
        }
      }
      assert Occurs(s, pattern) ==> Occurs(t, pattern) by {
        if Occurs(s, pattern) {
          var k :| 0 <= k <= |s| - |pattern| && OccursAt(s, pattern, k);
          assert k != 0;
          assert t[k - 1..k - 1 + |pattern|] == s[k..k + |pattern|];
          assert OccursAt(t, pattern, k - 1);
        }
      }
      [s[0]] + ReplaceAll(t, pattern, replacement)
  }

  /** `pattern` starts at index `k` of `s`. */
  predicate OccursAt(s: string, pattern: string, k: int)
  {
    0 <= k <= |s| - |pattern| && s[k..k + |pattern|] == pattern
  }

  /** `pattern in s`. */
  predicate Occurs(s: string, pattern: string)
  {
    exists k :: 0 <= k <= |s| && OccursAt(s, pattern, k)
  }

  // ----- ordering of strings, as Python compares them (by code point) -----

  /** `a < b` on Python strings. */
  predicate Less(a: string, b: string)
  {
    if a == [] then b != []
    else if b == [] then false
    else if a[0] != b[0] then a[0] < b[0]
    else Less(a[1..], b[1..])
  }

  lemma {:induction false} LessIrreflexive(a: string)
    ensures !Less(a, a)
  {
    if a != [] { LessIrreflexive(a[1..]); }
  }

  lemma {:induction false} LessTotal(a: string, b: string)
    ensures a == b || Less(a, b) || Less(b, a)
  {
    if a != [] && b != [] && a[0] == b[0] {
      LessTotal(a[1..], b[1..]);
      if a[1..] == b[1..] { assert a == [a[0]] + a[1..] && b == [b[0]] + b[1..]; }
    }
  }

  /** "not greater" is transitive. */
  lemma {:induction false} NotLessTrans(a: string, b: string, c: string)
    requires !Less(b, a) && !Less(c, b)
    ensures !Less(c, a)
  {
    if a != [] && b != [] && c != [] && a[0] == b[0] && b[0] == c[0] {
      NotLessTrans(a[1..], b[1..], c[1..]);
    }
  }

  /** Comparing two paths under one directory compares the names. */
  lemma {:induction false} LessCommonPrefix(p: string, x: string, y: string)
    ensures Less(p + x, p + y) == Less(x, y)
  {
    if p != [] {
      assert (p + x)[1..] == p[1..] + x && (p + y)[1..] == p[1..] + y;
      LessCommonPrefix(p[1..], x, y);
    } else {
      assert p + x == x && p + y == y;
    }
  }

  predicate Sorted(s: seq<string>)
  {
    forall i, j :: 0 <= i < j < |s| ==> !Less(s[j], s[i])
  }

  /** A sorted list stays sorted under a new head that no element is below. */
  lemma SortedCons(a: string, t: seq<string>)
    requires Sorted(t)
    requires forall j :: 0 <= j < |t| ==> !Less(t[j], a)
    ensures Sorted([a] + t)
  {
    var r := [a] + t;
    forall i, j | 0 <= i < j < |r| ensures !Less(r[j], r[i]) {
      assert r[j] == t[j - 1];
      if i > 0 { assert r[i] == t[i - 1]; }
    }
  }

  /** An element not above the head of a sorted list is not above any of it. */
  lemma BelowHead(x: string, s: seq<string>)
    requires Sorted(s) && s != [] && !Less(s[0], x)
    ensures forall j :: 0 <= j < |s| ==> !Less(s[j], x)
  {
    forall j | 0 <= j < |s| ensures !Less(s[j], x) {
      if j > 0 { NotLessTrans(x, s[0], s[j]); }
    }
  }

  /** What is inserted behind the head of a sorted list is not below that head. */
  lemma AboveHead(x: string, s: seq<string>, t: seq<string>)
    requires Sorted(s) && s != [] && Less(s[0], x)
    requires multiset(t) == multiset(s[1..]) + multiset{x}
    ensures forall j :: 0 <= j < |t| ==> !Less(t[j], s[0])
  {
    forall j | 0 <= j < |t| ensures !Less(t[j], s[0]) {
      var y := t[j];
      assert y in multiset(t);
      if y == x {
        LessAsym(s[0], x);
      } else {
        assert y in multiset(s[1..]);
        var k :| 0 <= k < |s[1..]| && s[1..][k] == y;
        assert s[k + 1] == y;
      }
    }
  }

  function Insert(x: string, s: seq<string>): (r: seq<string>)
    requires Sorted(s)
    ensures Sorted(r)
    ensures multiset(r) == multiset(s) + multiset{x}
  {
    if s == [] then [x]
    else if !Less(s[0], x) then
      BelowHead(x, s);
      SortedCons(x, s);
      [x] + s
    else
      var t := Insert(x, s[1..]);
      AboveHead(x, s, t);
      SortedCons(s[0], t);
      assert s == [s[0]] + s[1..];
      [s[0]] + t
  }

  lemma LessAsym(a: string, b: string)
    requires Less(a, b)
    ensures !Less(b, a)
  {
    if !(a != [] && b != [] && a[0] == b[0]) {
    } else {
      LessAsym(a[1..], b[1..]);
    }
  }

  /** Python's `sorted(names)`. */
  function Sort(s: seq<string>): (r: seq<string>)
    ensures Sorted(r)
    ensures multiset(r) == multiset(s)
  {
    if s == [] then []
    else
      assert s == s[..|s| - 1] + [s[|s| - 1]];
      Insert(s[|s| - 1], Sort(s[..|s| - 1]))
  }
}
