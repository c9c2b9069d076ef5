/** Paths as the source handles them: strings built with POSIX
    `os.path.join`, and the directories they name, which `pathlib` reaches
    by splitting at `/` and ignoring empty and `.` components. */
module Paths {

  /** A directory, as the list of its path components. */
  type Segments = seq<string>

  /** The POSIX separator. */
  const Sep: char := '/'

  /** Two-argument `os.path.join` (POSIX): an absolute second part replaces
      the first; otherwise a separator is put between them unless the first
      is empty or already ends with one. */
  function JoinPath(a: string, b: string): (r: string)
    ensures |b| > 0 && b[0] == Sep ==> r == b
    ensures !(|b| > 0 && b[0] == Sep) ==> |a| + |b| <= |r| && a <= r && r[|r| - |b|..] == b
  {
    if |b| > 0 && b[0] == Sep then b
    else if a == [] || a[|a| - 1] == Sep then a + b
    else a + [Sep] + b
  }

  /** Index of the last separator in `s`, or -1 when there is none. */
  function LastSep(s: string): (r: int)
    ensures -1 <= r < |s|
    ensures r == -1 ==> Sep !in s
    ensures r >= 0 ==> s[r] == Sep && Sep !in s[r + 1..]
  {
    if s == [] then -1
    else if s[|s| - 1] == Sep then |s| - 1
    else
      var r := LastSep(s[..|s| - 1]);
      assert s == s[..|s| - 1] + [s[|s| - 1]];
      r
  }

  /** The component a piece of a path contributes: none for `""` and `.`. */
  function Keep(part: string): Segments
  {
    if part == "" || part == "." then [] else [part]
  }

  /** The components of a path, as `pathlib` parses it. */
  function Parts(s: string): Segments
    decreases |s|
  {
    var i := LastSep(s);
    if i < 0 then Keep(s) else Parts(s[..i]) + Keep(s[i + 1..])
  }

  /** The directory `p` and all of its ancestors, down to the starting one. */
  function Prefixes(p: Segments): set<Segments>
  {
    set k | 0 <= k <= |p| :: p[..k]
  }

  /** A set of directories that holds the ancestors of each of its members. */
  ghost predicate PrefixClosed(dirs: set<Segments>)
  {
    forall d, k :: d in dirs && 0 <= k <= |d| ==> d[..k] in dirs
  }

  /** A path splits at its last separator. */
  lemma PartsAtLastSep(s: string, i: nat)
    requires i < |s| && s[i] == Sep && Sep !in s[i + 1..]
    ensures Parts(s) == Parts(s[..i]) + Keep(s[i + 1..])
  {
    assert LastSep(s) == i;
  }

  /** Joining a name without separators adds exactly that one component
      (or none, for `""` and `.`). */
  lemma PartsOfJoin(a: string, b: string)
    requires Sep !in b
    ensures Parts(JoinPath(a, b)) == Parts(a) + Keep(b)
  {
    if a == [] {
      assert JoinPath(a, b) == b;
    } else if a[|a| - 1] == Sep {
      PartsOfJoinAfterSep(a, b);
    } else {
      PartsOfJoinInsertSep(a, b);
    }
  }

  lemma PartsOfJoinAfterSep(a: string, b: string)
    requires Sep !in b && a != [] && a[|a| - 1] == Sep
    ensures Parts(a + b) == Parts(a) + Keep(b)
  {
    var j := a + b;
    assert Parts(j) == Parts(a[..|a| - 1]) + Keep(b) by {
      assert j[..|a| - 1] == a[..|a| - 1] && j[|a|..] == b;
      PartsAtLastSep(j, |a| - 1);
    }
    assert Parts(a) == Parts(a[..|a| - 1]) by {
      assert a[|a|..] == [];
      PartsAtLastSep(a, |a| - 1);
    }
  }

  lemma PartsOfJoinInsertSep(a: string, b: string)
    requires Sep !in b
    ensures Parts(a + [Sep] + b) == Parts(a) + Keep(b)
  {
    var j := a + [Sep] + b;
    assert j[..|a|] == a && j[|a| + 1..] == b;
    PartsAtLastSep(j, |a|);
  }

  /** Adding a directory with its ancestors keeps a set prefix-closed. */
  lemma AddPrefixesClosed(dirs: set<Segments>, p: Segments)
    requires PrefixClosed(dirs)
    ensures PrefixClosed(dirs + Prefixes(p))
    ensures p in dirs + Prefixes(p) && [] in Prefixes(p)
  {
    assert p[..|p|] == p && p[..0] == [];
    forall d, k | d in dirs + Prefixes(p) && 0 <= k <= |d|
      ensures d[..k] in dirs + Prefixes(p)
    {
      if d !in dirs {
        var m :| 0 <= m <= |p| && d == p[..m];
        assert d[..k] == p[..k];
      }
    }
  }

  /** When the directory itself exists, so do all its ancestors. */
  lemma PrefixesPresent(dirs: set<Segments>, p: Segments)
    requires PrefixClosed(dirs) && p in dirs
    ensures Prefixes(p) <= dirs
  {
  }
}
