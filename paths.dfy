/** Local file paths as pathlib sees them: the name-only glob of `Path.rglob`, `Path.suffix`,
    and the ordering that `sorted()` applies to a list of paths. */
module Paths {
  import opened Text

  /** A path below the data directory: its directory components and its file name. */
  datatype LocalPath = LocalPath(dir: seq<string>, name: string)

  /** `dir / name`. */
  function Join(dir: seq<string>, name: string): LocalPath { LocalPath(dir, name) }

  /** `fnmatch` of a file name against a pattern whose only wildcard is `*`. */
  predicate GlobMatch(p: string, s: string)
    decreases |p| + |s|
  {
    if p == [] then s == []
    else if p[0] == '*' then GlobMatch(p[1..], s) || (s != [] && GlobMatch(p, s[1..]))
    else s != [] && s[0] == p[0] && GlobMatch(p[1..], s[1..])
  }

  predicate NoStar(p: string) { forall i :: 0 <= i < |p| ==> p[i] != '*' }

  /** A lone `*` matches every name. */
  lemma {:induction false} StarMatchesAll(s: string)
    ensures GlobMatch("*", s)
    decreases |s|
  {
    assert "*"[1..] == [];
    if s != [] {
      StarMatchesAll(s[1..]);
    }
  }

  /** A literal followed by `*` matches exactly the names that start with the literal: the
      glob is anchored at the start of the name. */
  lemma {:induction false} GlobPrefix(p: string, s: string)
    requires NoStar(p)
    ensures GlobMatch(p + "*", s) <==> IsPrefix(p, s)
    decreases |p|
  {
    if p == [] {
      assert p + "*" == "*";
      StarMatchesAll(s);
    } else {
      assert (p + "*")[0] == p[0];
      assert (p + "*")[1..] == p[1..] + "*";
      if s != [] {
        GlobPrefix(p[1..], s[1..]);
        if IsPrefix(p[1..], s[1..]) && s[0] == p[0] {
          assert s[..|p|] == [s[0]] + s[1..][..|p| - 1];
          assert p == [p[0]] + p[1..];
        }
        if IsPrefix(p, s) {
          assert s[1..][..|p| - 1] == s[..|p|][1..];
        }
      }
    }
  }

  /** `Path(d).rglob(pattern)`: the entries below `d`, in the walk's order, whose names match. */
  function Rglob(files: seq<LocalPath>, pattern: string): (r: seq<LocalPath>)
    ensures |r| <= |files|
    ensures forall p :: p in r <==> p in files && GlobMatch(pattern, p.name)
    decreases |files|
  {
    if files == [] then []
    else if GlobMatch(pattern, files[0].name) then [files[0]] + Rglob(files[1..], pattern)
    else Rglob(files[1..], pattern)
  }

  /** The walk's first entry that matches is the first entry of the result. */
  lemma {:induction false} RglobFirst(files: seq<LocalPath>, pattern: string)
    requires Rglob(files, pattern) != []
    ensures exists i :: 0 <= i < |files| && files[i] == Rglob(files, pattern)[0] && NoneMatchBefore(files, pattern, i)
    decreases |files|
  {
    if !GlobMatch(pattern, files[0].name) {
      RglobFirst(files[1..], pattern);
      var i :| 0 <= i < |files[1..]| && files[1..][i] == Rglob(files[1..], pattern)[0] && NoneMatchBefore(files[1..], pattern, i);
      assert files[i + 1] == Rglob(files, pattern)[0];
      forall j | 0 <= j < i + 1 ensures !GlobMatch(pattern, files[j].name) {
        if j > 0 {
          assert files[j] == files[1..][j - 1];
        }
      }
    } else {
      assert NoneMatchBefore(files, pattern, 0);
    }
  }

  predicate NoneMatchBefore(files: seq<LocalPath>, pattern: string, i: int)
    requires 0 <= i <= |files|
  {
    forall j :: 0 <= j < i ==> !GlobMatch(pattern, files[j].name)
  }

  /** Position of the last '.' in `s`. */
  function LastDot(s: string): (r: int)
    ensures -1 <= r < |s|
    ensures r >= 0 ==> s[r] == '.'
    ensures forall i :: r < i < |s| ==> s[i] != '.'
    decreases |s|
  {
    if s == [] then -1
    else if s[|s| - 1] == '.' then |s| - 1
    else LastDot(s[..|s| - 1])
  }

  /** `PurePath.suffix`: from the last '.' on, unless that dot opens or ends the name. */
  function Suffix(name: string): (r: string)
    ensures r == [] || (r[0] == '.' && |r| >= 2)
    ensures r != [] ==> exists i :: 0 < i < |name| - 1 && r == name[i..]
  {
    var i := LastDot(name);
    if 0 < i < |name| - 1 then name[i..] else ""
  }

  /** A suffix is empty or starts with a dot, so it is never the bare word "zip". */
  lemma SuffixNeverZip(name: string)
    ensures Suffix(name) != "zip"
  {
    var r := Suffix(name);
    if r != [] {
      assert r[0] == '.';
      assert "zip"[0] == 'z';
    }
  }

  /** The suffix test of the attitude loader (`attitude_file.suffix == ".zip"`). */
  predicate IsZip(name: string) { Suffix(name) == ".zip" }

  /** A name has the ".zip" suffix exactly when it ends in ".zip" after at least one other
      character. */
  lemma ZipSuffix(name: string)
    ensures IsZip(name) <==> |name| > 4 && name[|name| - 4..] == ".zip"
  {
    var n := |name|;
    if |name| > 4 && name[n - 4..] == ".zip" {
      assert name[n - 4] == '.' && name[n - 3] == 'z' && name[n - 2] == 'i' && name[n - 1] == 'p';
      assert LastDot(name) == n - 4;
    }
    if IsZip(name) {
      var i := LastDot(name);
      assert name[i..] == ".zip";
    }
  }

  /** A HILT archive name: its suffix is ".zip", which the comparison with "zip" misses. */
  lemma HiltZipName()
    ensures IsZip("hhrr1999229.zip") && Suffix("hhrr1999229.zip") != "zip"
  {
    ZipSuffix("hhrr1999229.zip");
    SuffixNeverZip("hhrr1999229.zip");
  }

  /** Python's `<` on strings: code point by code point, a proper prefix first. */
  predicate StrLt(a: string, b: string)
    decreases |a|
  {
    if a == [] then b != []
    else b != [] && (a[0] < b[0] || (a[0] == b[0] && StrLt(a[1..], b[1..])))
  }

  lemma {:induction false} StrLtIrreflexive(a: string)
    ensures !StrLt(a, a)
    decreases |a|
  {
    if a != [] {
      StrLtIrreflexive(a[1..]);
    }
  }

  lemma {:induction false} StrLtTransitive(a: string, b: string, c: string)
    requires StrLt(a, b) && StrLt(b, c)
    ensures StrLt(a, c)
    decreases |a|
  {
    if a != [] && a[0] == b[0] && b[0] == c[0] {
      StrLtTransitive(a[1..], b[1..], c[1..]);
    }
  }

  lemma {:induction false} StrLtTotal(a: string, b: string)
    ensures a == b || StrLt(a, b) || StrLt(b, a)
    decreases |a|
  {
    if a != [] && b != [] && a[0] == b[0] {
      StrLtTotal(a[1..], b[1..]);
      if a[1..] == b[1..] {
        assert a == [a[0]] + a[1..] && b == [b[0]] + b[1..];
      }
    }
  }

  /** List comparison of path components, each compared as a string. */
  predicate PartsLt(a: seq<string>, b: seq<string>)
    decreases |a|
  {
    if a == [] then b != []
    else b != [] && (StrLt(a[0], b[0]) || (a[0] == b[0] && PartsLt(a[1..], b[1..])))
  }

  lemma {:induction false} PartsLtIrreflexive(a: seq<string>)
    ensures !PartsLt(a, a)
    decreases |a|
  {
    if a != [] {
      StrLtIrreflexive(a[0]);
      PartsLtIrreflexive(a[1..]);
    }
  }

  lemma {:induction false} PartsLtTransitive(a: seq<string>, b: seq<string>, c: seq<string>)
    requires PartsLt(a, b) && PartsLt(b, c)
    ensures PartsLt(a, c)
    decreases |a|
  {
    if a != [] {
      if StrLt(a[0], b[0]) && StrLt(b[0], c[0]) {
        StrLtTransitive(a[0], b[0], c[0]);
      } else if a[0] == b[0] && b[0] == c[0] {
        PartsLtTransitive(a[1..], b[1..], c[1..]);
      }
    }
  }

  lemma {:induction false} PartsLtTotal(a: seq<string>, b: seq<string>)
    ensures a == b || PartsLt(a, b) || PartsLt(b, a)
    decreases |a|
  {
    if a != [] && b != [] {
      StrLtTotal(a[0], b[0]);
      if a[0] == b[0] {
        PartsLtTotal(a[1..], b[1..]);
        if a[1..] == b[1..] {
          assert a == [a[0]] + a[1..] && b == [b[0]] + b[1..];
        }
      }
    }
  }

  function Parts(p: LocalPath): seq<string> { p.dir + [p.name] }

  /** `PurePath.__lt__`. */
  predicate PathLt(p: LocalPath, q: LocalPath) { PartsLt(Parts(p), Parts(q)) }

  lemma PartsInjective(p: LocalPath, q: LocalPath)
    requires Parts(p) == Parts(q)
    ensures p == q
  {
    assert p.dir == Parts(p)[..|Parts(p)| - 1];
    assert q.dir == Parts(q)[..|Parts(q)| - 1];
  }

  /** Distinct paths are ordered one way or the other, and never both. */
  lemma PathOrder(p: LocalPath, q: LocalPath, r: LocalPath)
    ensures !PathLt(p, p)
    ensures p == q || PathLt(p, q) || PathLt(q, p)
    ensures PathLt(p, q) && PathLt(q, r) ==> PathLt(p, r)
  {
    PartsLtIrreflexive(Parts(p));
    PartsLtTotal(Parts(p), Parts(q));
    if Parts(p) == Parts(q) {
      PartsInjective(p, q);
    }
    if PathLt(p, q) && PathLt(q, r) {
      PartsLtTransitive(Parts(p), Parts(q), Parts(r));
    }
  }

  predicate SortedPaths(s: seq<LocalPath>) {
    forall i, j :: 0 <= i < j < |s| ==> !PathLt(s[j], s[i])
  }

  /** Insertion into a sorted list, after every element that is not greater (so `sorted` is
      stable). */
  function Insert(x: LocalPath, s: seq<LocalPath>): (r: seq<LocalPath>)
    ensures multiset(r) == multiset(s) + multiset{x}
    decreases |s|
  {
    if s == [] || PathLt(x, s[0]) then [x] + s
    else
      assert s == [s[0]] + s[1..];
      [s[0]] + Insert(x, s[1..])
  }

  /** `sorted(paths)`. */
  function SortPaths(s: seq<LocalPath>): (r: seq<LocalPath>)
    ensures multiset(r) == multiset(s)
    decreases |s|
  {
    if s == [] then []
    else
      assert s == [s[0]] + s[1..];
      Insert(s[0], SortPaths(s[1..]))
  }

  lemma {:induction false} InsertSorted(x: LocalPath, s: seq<LocalPath>)
    requires SortedPaths(s)
    ensures SortedPaths(Insert(x, s))
    decreases |s|
  {
    if s == [] || PathLt(x, s[0]) {
      InsertFrontSorted(x, s);
    } else {
      InsertSorted(x, s[1..]);
      InsertAfterSorted(x, s, Insert(x, s[1..]));
    }
  }

  /** A path smaller than the head of a sorted list can go in front of it. */
  lemma InsertFrontSorted(x: LocalPath, s: seq<LocalPath>)
    requires SortedPaths(s) && (s == [] || PathLt(x, s[0]))
    ensures SortedPaths([x] + s)
  {
    var r := [x] + s;
    forall i, j | 0 <= i < j < |r| ensures !PathLt(r[j], r[i]) {
      if i == 0 {
        PathOrder(s[j - 1], x, s[0]);
        PathOrder(s[j - 1], s[0], x);
        if j - 1 > 0 {
          PathOrder(s[0], s[j - 1], s[0]);
        }
      } else {
        assert r[i] == s[i - 1] && r[j] == s[j - 1];
      }
    }
  }

  /** The head of a sorted list stays in front of the sorted insertion into its tail, when
      the inserted path is not below it. */
  lemma InsertAfterSorted(x: LocalPath, s: seq<LocalPath>, t: seq<LocalPath>)
    requires SortedPaths(s) && s != [] && !PathLt(x, s[0])
    requires SortedPaths(t) && multiset(t) == multiset(s[1..]) + multiset{x}
    ensures SortedPaths([s[0]] + t)
  {
    var r := [s[0]] + t;
    forall i, j | 0 <= i < j < |r| ensures !PathLt(r[j], r[i]) {
      if i == 0 {
        HeadBelowTail(x, s, t, j - 1);
      } else {
        assert r[i] == t[i - 1] && r[j] == t[j - 1];
      }
    }
  }

  lemma HeadBelowTail(x: LocalPath, s: seq<LocalPath>, t: seq<LocalPath>, k: nat)
    requires SortedPaths(s) && s != [] && !PathLt(x, s[0])
    requires multiset(t) == multiset(s[1..]) + multiset{x} && k < |t|
    ensures !PathLt(t[k], s[0])
  {
    var y := t[k];
    assert y in multiset(t);
    if y != x {
      assert y in multiset(s[1..]);
      var m :| 0 <= m < |s[1..]| && s[1..][m] == y;
      assert s[m + 1] == y;
    }
  }

  /** `sorted` returns the same paths in order. */
  lemma {:induction false} SortPathsSorted(s: seq<LocalPath>)
    ensures SortedPaths(SortPaths(s))
    ensures multiset(SortPaths(s)) == multiset(s)
    decreases |s|
  {
    if s != [] {
      SortPathsSorted(s[1..]);
      InsertSorted(s[0], SortPaths(s[1..]));
    }
  }
}
