// symbols/paths.py: locating a target binary and the source files named by
// debug information among a list of search paths. `os.path.exists` is the
// set `existing` of paths present on the file system, and `os.name` is
// taken to be 'posix', so Windows-style paths are always converted first.
module SymbolPaths {
  import opened Wrappers
  import PyStr
  import opened PosixPath

  /** Every backslash of `s` turned into '/'. */
  function ToSlashes(s: string): (r: string)
    ensures |r| == |s|
    ensures forall i :: 0 <= i < |s| ==> r[i] == (if s[i] == '\\' then '/' else s[i])
  {
    if s == [] then [] else ToSlashes(s[..|s| - 1]) + [if s[|s| - 1] == '\\' then '/' else s[|s| - 1]]
  }

  /** `_convert_path_to_unix`: backslashes become '/', and a drive prefix "X:" before the first separator is dropped. */
  function ConvertPathToUnix(path: string): (r: string)
  {
    if '\\' !in path then path
    else
      var p := ToSlashes(path);
      if |p| >= 3 && p[1..3] == ":/" then p[2..] else p
  }

  /**
   * The converted path is the original read from offset 0, or from offset
   * 2 past a drive "X:" followed by a separator, with every backslash read
   * as '/'; a path without a backslash is returned as it is.
   */
  lemma ConvertSpec(path: string)
    ensures '\\' !in path ==> ConvertPathToUnix(path) == path
    ensures '\\' !in ConvertPathToUnix(path)
    ensures var r := ConvertPathToUnix(path); var k := |path| - |r|;
      (k == 0 || (k == 2 && path[1] == ':' && (path[2] == '/' || path[2] == '\\')))
      && forall i :: 0 <= i < |r| ==> r[i] == (if path[i + k] == '\\' then '/' else path[i + k])
  {
    var r := ConvertPathToUnix(path);
    if '\\' in path {
      var p := ToSlashes(path);
      assert forall i :: 0 <= i < |p| ==> p[i] != '\\';
      if |p| >= 3 && p[1..3] == ":/" {
        assert p[1] == ':' && p[2] == '/';
      }
    }
  }

  lemma TwoSlashes()
    ensures AllSlashes("//")
  {
  }

  lemma OneSlash()
    ensures AllSlashes("/")
  {
  }

  /** Converting twice is converting once. */
  lemma ConvertIdempotent(path: string)
    ensures ConvertPathToUnix(ConvertPathToUnix(path)) == ConvertPathToUnix(path)
  {
    ConvertSpec(path);
  }

  /** A Windows path with a drive letter loses the drive and keeps its components. */
  lemma ConvertDrivePath()
    ensures ConvertPathToUnix("C:\\src\\a.c") == "/src/a.c"
  {
    var p := ToSlashes("C:\\src\\a.c");
    assert p == "C:/src/a.c";
    assert p[1..3] == ":/";
  }

  /** The names `guess_target_path` tries: the path, its basename, then their lowercase forms when these differ. */
  function Candidates(target: string): (r: seq<string>)
  {
    var bn := Basename(target);
    [target, bn]
    + (if PyStr.Lower(target) != target then [PyStr.Lower(target)] else [])
    + (if PyStr.Lower(bn) != bn then [PyStr.Lower(bn)] else [])
  }

  lemma CandidatesSpec(target: string)
    ensures var c := Candidates(target); var bn := Basename(target);
      c[0] == target && c[1] == bn
      && PyStr.Lower(target) in c && PyStr.Lower(bn) in c
      && (forall x :: x in c ==> x == target || x == bn || x == PyStr.Lower(target) || x == PyStr.Lower(bn))
      && |c| <= 4
  {
  }

  /** The paths joined for one candidate name, one per search path, in order. */
  function Row(searchPaths: seq<string>, name: string): (r: seq<string>)
    ensures |r| == |searchPaths|
    ensures forall j :: 0 <= j < |r| ==> r[j] == Join2(searchPaths[j], name)
  {
    seq(|searchPaths|, j requires 0 <= j < |searchPaths| => Join2(searchPaths[j], name))
  }

  lemma RowSnoc(searchPaths: seq<string>, j: nat, name: string)
    requires j < |searchPaths|
    ensures Row(searchPaths[..j + 1], name) == Row(searchPaths[..j], name) + [Join2(searchPaths[j], name)]
  {
  }

  /** The list `tried` of `guess_target_path` once every candidate is tried: candidates outer, search paths inner. */
  function Tries(names: seq<string>, searchPaths: seq<string>): seq<string>
  {
    if names == [] then []
    else Tries(names[..|names| - 1], searchPaths) + Row(searchPaths, names[|names| - 1])
  }

  /** Every candidate joined to every search path is tried, and nothing else is. */
  lemma {:induction false} TriesMembers(names: seq<string>, searchPaths: seq<string>)
    ensures forall n, sp :: n in names && sp in searchPaths ==> Join2(sp, n) in Tries(names, searchPaths)
    ensures forall p :: p in Tries(names, searchPaths) ==>
      exists n, sp :: n in names && sp in searchPaths && p == Join2(sp, n)
    decreases |names|
  {
    if names != [] {
      var front, last := names[..|names| - 1], names[|names| - 1];
      TriesMembers(front, searchPaths);
      var row := Row(searchPaths, last);
      assert names == front + [last];
      forall n, sp | n in names && sp in searchPaths
        ensures Join2(sp, n) in Tries(names, searchPaths)
      {
        if n != last {
          assert n in front;
        } else {
          var j :| 0 <= j < |searchPaths| && searchPaths[j] == sp;
          assert row[j] == Join2(sp, n);
        }
      }
      forall p | p in Tries(names, searchPaths)
        ensures exists n, sp :: n in names && sp in searchPaths && p == Join2(sp, n)
      {
        if p !in Tries(front, searchPaths) {
          assert p in row;
          var j :| 0 <= j < |row| && row[j] == p;
          assert searchPaths[j] in searchPaths;
        }
      }
    }
  }

  /** The joined paths up to and including search path `j` of candidate `i` come first in `Tries`. */
  lemma {:induction false} TriesPrefix(names: seq<string>, searchPaths: seq<string>, i: nat, j: nat)
    requires i < |names| && j < |searchPaths|
    ensures Tries(names[..i], searchPaths) + Row(searchPaths[..j + 1], names[i]) <= Tries(names, searchPaths)
    decreases |names|
  {
    var row := Row(searchPaths[..j + 1], names[i]);
    var full := Row(searchPaths, names[i]);
    assert row <= full;
    assert names[..i + 1][..i] == names[..i];
    assert Tries(names[..i + 1], searchPaths) == Tries(names[..i], searchPaths) + full;
    TriesGrow(names, searchPaths, i + 1);
  }

  lemma {:induction false} TriesGrow(names: seq<string>, searchPaths: seq<string>, k: nat)
    requires k <= |names|
    ensures Tries(names[..k], searchPaths) <= Tries(names, searchPaths)
    decreases |names|
  {
    if k < |names| {
      var front := names[..|names| - 1];
      assert front[..k] == names[..k];
      TriesGrow(front, searchPaths, k);
    } else {
      assert names[..k] == names;
    }
  }

  /** The index of the first path of `s` that exists. */
  function FirstExisting(s: seq<string>, existing: set<string>): (r: Option<nat>)
    ensures r.Some? ==> (r.value < |s| && s[r.value] in existing
      && forall m :: 0 <= m < r.value ==> s[m] !in existing)
    ensures r.None? ==> forall m :: 0 <= m < |s| ==> s[m] !in existing
  {
    if s == [] then None
    else match FirstExisting(s[..|s| - 1], existing)
      case Some(k) => Some(k)
      case None => if s[|s| - 1] in existing then Some(|s| - 1) else None
  }

  lemma FirstExistingAt(s: seq<string>, k: nat, existing: set<string>)
    requires k < |s| && s[k] in existing
    requires forall m :: 0 <= m < k ==> s[m] !in existing
    ensures FirstExisting(s, existing) == Some(k)
  {
  }

  lemma FirstExistingNone(s: seq<string>, existing: set<string>)
    requires forall m :: 0 <= m < |s| ==> s[m] !in existing
    ensures FirstExisting(s, existing) == None
  {
  }

  /** The candidate names once a leading '/' is stripped, so that joining keeps the search path. */
  function Relative(t: string): string
    requires t != []
  {
    if t[0] == '/' then t[1..] else t
  }

  /** The first existing join of a candidate name to a search path, candidates outer; a plain Exception when there is none. */
  function SearchJoined(names: seq<string>, searchPaths: seq<string>, existing: set<string>): Result<string>
  {
    var tries := Tries(names, searchPaths);
    match FirstExisting(tries, existing)
    case Some(k) => Ok(tries[k])
    case None => Fail(PlainException)
  }

  /** The join found exists and comes from some candidate and search path; the search fails exactly when no join exists. */
  lemma SearchJoinedSpec(names: seq<string>, searchPaths: seq<string>, existing: set<string>)
    ensures var r := SearchJoined(names, searchPaths, existing);
      (r.Ok? ==> r.value in existing && exists n, sp :: n in names && sp in searchPaths && r.value == Join2(sp, n))
      && (r.Fail? ==> r.error == PlainException)
      && (r.Fail? <==> forall n, sp :: n in names && sp in searchPaths ==> Join2(sp, n) !in existing)
  {
    TriesMembers(names, searchPaths);
    var tries := Tries(names, searchPaths);
    var r := SearchJoined(names, searchPaths, existing);
    if r.Ok? {
      var k := FirstExisting(tries, existing).value;
      assert tries[k] in tries;
    }
  }

  /** `guess_target_path`: the target itself if it exists, else the first existing (candidate, search path) join. */
  function GuessTarget(searchPaths: seq<string>, target: string, existing: set<string>): Result<string>
  {
    if target in existing then Ok(target)
    else
      var t := ConvertPathToUnix(target);
      if t == [] then Fail(IndexError)
      else
        SearchJoined(Candidates(Relative(t)), searchPaths, existing)
  }

  /**
   * What `guess_target_path` returns exists, and is the target or a
   * candidate joined to a search path; it raises a plain Exception exactly
   * when no such join exists, and IndexError for an empty target.
   */
  lemma GuessTargetSpec(searchPaths: seq<string>, target: string, existing: set<string>)
    ensures var r := GuessTarget(searchPaths, target, existing);
      (r.Ok? ==> r.value in existing)
      && (r.Ok? && r.value != target ==>
            exists n, sp :: n in Candidates(Relative(ConvertPathToUnix(target))) && sp in searchPaths && r.value == Join2(sp, n))
      && (r == Fail(IndexError) <==> target == [] && target !in existing)
      && (r == Fail(PlainException) <==>
            target != [] && target !in existing
            && forall n, sp :: n in Candidates(Relative(ConvertPathToUnix(target))) && sp in searchPaths ==> Join2(sp, n) !in existing)
  {
    ConvertSpec(target);
    if target !in existing && target != [] {
      SearchJoinedSpec(Candidates(Relative(ConvertPathToUnix(target))), searchPaths, existing);
    }
  }

  /** `guess_target_path`, its checks before the loops. */
  method GuessTargetPath(searchPaths: seq<string>, target: string, existing: set<string>) returns (r: Result<string>)
    ensures r == GuessTarget(searchPaths, target, existing)
  {
    if target in existing {
      return Ok(target);
    }
    var t := ConvertPathToUnix(target);
    if t == [] {
      return Fail(IndexError);
    }
    if t[0] == '/' {
      t := t[1..];
    }
    r := TryCandidates(Candidates(t), searchPaths, existing);
  }

  /** The loops of `guess_target_path`: each candidate under each search path, recording what was tried. */
  method TryCandidates(candidates: seq<string>, searchPaths: seq<string>, existing: set<string>) returns (r: Result<string>)
    ensures r == SearchJoined(candidates, searchPaths, existing)
  {
    var tried: seq<string> := [];
    var i := 0;
    while i < |candidates|
      invariant i <= |candidates|
      invariant tried == Tries(candidates[..i], searchPaths)
      invariant forall m :: 0 <= m < |tried| ==> tried[m] !in existing
    {
      var found;
      found, tried := TryRow(candidates, searchPaths, existing, i, tried);
      if found.Some? {
        return Ok(found.value);
      }
      i := i + 1;
    }
    NoneFound(candidates, searchPaths, existing, tried);
    return Fail(PlainException);
  }

  /** The inner loop of `guess_target_path`: candidate `i` under each search path in turn. */
  method TryRow(candidates: seq<string>, searchPaths: seq<string>, existing: set<string>, i: nat, tried0: seq<string>)
    returns (found: Option<string>, tried: seq<string>)
    requires i < |candidates| && tried0 == Tries(candidates[..i], searchPaths)
    requires forall m :: 0 <= m < |tried0| ==> tried0[m] !in existing
    ensures found.Some? ==> SearchJoined(candidates, searchPaths, existing) == Ok(found.value)
    ensures found.None? ==> tried == Tries(candidates[..i + 1], searchPaths)
    ensures found.None? ==> forall m :: 0 <= m < |tried| ==> tried[m] !in existing
  {
    tried := tried0;
    var name := candidates[i];
    var j := 0;
    while j < |searchPaths|
      invariant j <= |searchPaths|
      invariant tried == Tries(candidates[..i], searchPaths) + Row(searchPaths[..j], name)
      invariant forall m :: 0 <= m < |tried| ==> tried[m] !in existing
    {
      var p := Join2(searchPaths[j], name);
      RowSnoc(searchPaths, j, name);
      if p in existing {
        FoundJoin(candidates, searchPaths, existing, i, j, tried);
        return Some(p), tried;
      }
      tried := tried + [p];
      j := j + 1;
    }
    assert searchPaths[..j] == searchPaths;
    TriesNext(candidates, searchPaths, i);
    return None, tried;
  }

  /** The outer loop's step: one more candidate adds its row of joins. */
  lemma TriesNext(candidates: seq<string>, searchPaths: seq<string>, i: nat)
    requires i < |candidates|
    ensures Tries(candidates[..i + 1], searchPaths) == Tries(candidates[..i], searchPaths) + Row(searchPaths, candidates[i])
  {
    assert candidates[..i + 1][..i] == candidates[..i];
  }

  /** When no join of any candidate exists, the search fails. */
  lemma NoneFound(candidates: seq<string>, searchPaths: seq<string>, existing: set<string>, tried: seq<string>)
    requires tried == Tries(candidates[..|candidates|], searchPaths)
    requires forall m :: 0 <= m < |tried| ==> tried[m] !in existing
    ensures SearchJoined(candidates, searchPaths, existing) == Fail(PlainException)
  {
    assert candidates[..|candidates|] == candidates;
    FirstExistingNone(tried, existing);
  }

  /** A join the inner loop finds, when nothing tried before it exists, is what the search returns. */
  lemma FoundJoin(candidates: seq<string>, searchPaths: seq<string>, existing: set<string>, i: nat, j: nat, tried: seq<string>)
    requires i < |candidates| && j < |searchPaths|
    requires tried == Tries(candidates[..i], searchPaths) + Row(searchPaths[..j], candidates[i])
    requires forall m :: 0 <= m < |tried| ==> tried[m] !in existing
    requires Join2(searchPaths[j], candidates[i]) in existing
    ensures SearchJoined(candidates, searchPaths, existing) == Ok(Join2(searchPaths[j], candidates[i]))
  {
    var all := Tries(candidates, searchPaths);
    var p := Join2(searchPaths[j], candidates[i]);
    var front := Tries(candidates[..i], searchPaths);
    var pre := front + Row(searchPaths[..j + 1], candidates[i]);
    TriesPrefix(candidates, searchPaths, i, j);
    RowSnoc(searchPaths, j, candidates[i]);
    SnocAssoc(front, Row(searchPaths[..j], candidates[i]), p);
    PrefixHit(all, tried, p, existing);
  }

  lemma SnocAssoc(a: seq<string>, b: seq<string>, x: string)
    ensures a + (b + [x]) == (a + b) + [x]
  {
  }

  /** When `tried + [p]` starts `all`, `p` exists and nothing tried does, `p` is the first existing path of `all`. */
  lemma PrefixHit(all: seq<string>, tried: seq<string>, p: string, existing: set<string>)
    requires tried + [p] <= all && p in existing
    requires forall m :: 0 <= m < |tried| ==> tried[m] !in existing
    ensures FirstExisting(all, existing) == Some(|tried|)
  {
    assert all[|tried|] == (tried + [p])[|tried|];
    forall m | 0 <= m < |tried|
      ensures all[m] !in existing
    {
      assert all[m] == (tried + [p])[m];
    }
    FirstExistingAt(all, |tried|, existing);
  }

  /**
   * `_splitall`: the components of a path, split off from the right with
   * `os.path.split` until the head or the tail is the whole remaining path.
   */
  function Components(path: string): (r: seq<string>)
    ensures |r| >= 1
    decreases |path|
  {
    var (head, tail) := SplitPath(path);
    if head == path then [head]
    else if tail == path then [tail]
    else Components(head) + [tail]
  }

  /** `_splitall` with its loop; the parts are prepended as they are split off. */
  method SplitAll(path: string) returns (parts: seq<string>)
    ensures parts == Components(path)
  {
    parts := [];
    var rest := path;
    while true
      invariant Components(path) == Components(rest) + parts
      decreases |rest|
    {
      var (head, tail) := SplitPath(rest);
      if head == rest {
        parts := [head] + parts;
        return;
      } else if tail == rest {
        parts := [tail] + parts;
        return;
      } else {
        rest := head;
        parts := [tail] + parts;
      }
    }
  }

  lemma JoinAllSnoc(first: string, rest: seq<string>, last: string)
    ensures JoinAll(first, rest + [last]) == Join2(JoinAll(first, rest), last)
    decreases |rest|
  {
    if rest != [] {
      assert (rest + [last])[1..] == rest[1..] + [last];
      JoinAllSnoc(Join2(first, rest[0]), rest[1..], last);
    }
  }

  /** A head equal to the whole path happens only for a path of slashes (or the empty path). */
  lemma HeadWhole(p: string)
    requires SplitPath(p).0 == p
    ensures AllSlashes(p)
  {
    var i := RFind(p, '/') + 1;
    assert |p| <= i;
    assert p[..i] == p;
  }

  /** Unless the path is all slashes, its head is shorter. */
  lemma HeadShorter(p: string)
    requires !AllSlashes(p)
    ensures SplitPath(p).0 != p
  {
    var i := RFind(p, '/') + 1;
    assert i == |p| ==> p[..i] == p && p[|p| - 1] == '/';
  }

  /** An empty head leaves the whole path as the tail. */
  lemma HeadEmpty(p: string)
    ensures SplitPath(p).0 == [] ==> SplitPath(p).1 == p
  {
    var i := RFind(p, '/') + 1;
    assert p[0..] == p;
    assert i > 0 ==> p[..i] != [];
  }

  /**
   * The first component is the root (all slashes) of an absolute path, the
   * others hold no '/', and joining them gives the path back when it has no
   * doubled slash.
   */
  lemma {:induction false} ComponentsSpec(path: string)
    ensures var c := Components(path);
      (IsAbs(path) ==> c[0] != [] && AllSlashes(c[0]))
      && (forall k :: 1 <= k < |c| ==> '/' !in c[k])
      && (NoDoubleSlash(path) ==> JoinAll(c[0], c[1..]) == path)
    decreases |path|
  {
    var (head, tail) := SplitPath(path);
    var c := Components(path);
    if head == path {
      HeadWhole(path);
    } else if tail == path {
      TailWhole(path);
    } else {
      LastSplit(path);
      ComponentsSpec(head);
      var ch := Components(head);
      assert c[0] == ch[0];
      assert c[1..] == ch[1..] + [tail];
      assert forall k :: 1 <= k < |ch| ==> c[k] == ch[k];
      if NoDoubleSlash(path) {
        JoinAllSnoc(ch[0], ch[1..], tail);
      }
    }
  }

  /** A path with no '/' is a single relative component. */
  lemma TailWhole(path: string)
    requires SplitPath(path).0 != path && SplitPath(path).1 == path
    ensures Components(path) == [path] && '/' !in path && !IsAbs(path)
  {
    var tail := SplitPath(path).1;
    assert '/' !in tail;
    assert |path| > 0 ==> path[..1] == [tail[0]] && tail[0] != '/';
  }

  /** A path with a proper head and tail: its components are the head's and then the tail. */
  lemma LastSplit(path: string)
    requires SplitPath(path).0 != path && SplitPath(path).1 != path
    ensures var head, tail := SplitPath(path).0, SplitPath(path).1;
      Components(path) == Components(head) + [tail] && |head| < |path| && '/' !in tail
      && (IsAbs(path) ==> IsAbs(head))
      && (NoDoubleSlash(path) ==> NoDoubleSlash(head) && Join2(head, tail) == path)
  {
    var head, tail := SplitPath(path).0, SplitPath(path).1;
    HeadEmpty(path);
    assert head == path[..|head|] && head != [];
    assert path[..|path|] == path;
    assert Components(path) == Components(head) + [tail];
    assert '/' !in tail;
    if IsAbs(path) {
      assert head[0] == path[0];
    }
    if NoDoubleSlash(path) {
      assert NoDoubleSlash(head) by {
        assert head == path[..|head|];
      }
      SplitPathJoin(path);
    }
  }

  /** The split of a path at a given last separator. */
  lemma SplitAt(p: string, k: nat)
    requires k < |p| && p[k] == '/' && forall j :: k < j < |p| ==> p[j] != '/'
    ensures SplitPath(p).1 == p[k + 1..]
    ensures AllSlashes(p[..k + 1]) ==> SplitPath(p).0 == p[..k + 1]
    ensures !AllSlashes(p[..k + 1]) ==> SplitPath(p).0 == PyStr.RStripChar(p[..k + 1], '/')
  {
    assert RFind(p, '/') == k;
  }

  lemma SplitABC()
    ensures SplitPath("/a/b/c") == ("/a/b", "c")
  {
    SplitAt("/a/b/c", 4);
    assert "/a/b/c"[..5] == "/a/b/" && "/a/b/"[1] == 'a' && "/a/b/c"[5..] == "c";
    assert PyStr.RStripChar("/a/b/", '/') == "/a/b";
  }

  lemma SplitAB()
    ensures SplitPath("/a/b") == ("/a", "b")
  {
    SplitAt("/a/b", 2);
    assert "/a/b"[..3] == "/a/" && "/a/"[1] == 'a' && "/a/b"[3..] == "b";
    assert PyStr.RStripChar("/a/", '/') == "/a";
  }

  lemma SplitA()
    ensures SplitPath("/a") == ("/", "a")
    ensures SplitPath("/") == ("/", "")
  {
    SplitAt("/a", 0);
    OneSlash();
    assert "/a"[..1] == "/" && "/a"[1..] == "a";
    SplitAt("/", 0);
    assert "/"[..1] == "/" && "/"[1..] == "";
  }

  /** `/a/b/c` splits into `/`, `a`, `b`, `c`. */
  lemma ComponentsExample()
    ensures Components("/a/b/c") == ["/", "a", "b", "c"]
  {
    SplitABC();
    SplitAB();
    SplitA();
    assert Components("/") == ["/"];
    assert Components("/a") == ["/", "a"];
    assert Components("/a/b") == ["/", "a", "b"];
  }

  /** The outcome of `_guess_rel_path`'s parent walk as written: a hit, a miss, or a loop that never ends. */
  datatype Walk = Hit(found: string) | Miss | Hangs

  /** `dirname` of a path that is neither empty nor all slashes is strictly shorter. */
  lemma DirnameShorter(p: string)
    requires p != [] && !AllSlashes(p)
    ensures |Dirname(p)| < |p| && Dirname(p) == p[..|Dirname(p)|]
  {
    HeadShorter(p);
  }

  /**
   * `_guess_rel_path`'s walk up from `cur` as written: the loop stops at ""
   * and "/", so a directory of two or more slashes, whose `dirname` is
   * itself, is tested again and again.
   */
  function WalkAsWritten(cur: string, path: string, existing: set<string>): Walk
    decreases |cur|
  {
    if cur == [] || cur == "/" then Miss
    else if Join2(cur, path) in existing then Hit(NormPath(Join2(cur, path)))
    else if Dirname(cur) == cur then Hangs
    else
      assert |Dirname(cur)| < |cur| by {
        assert Dirname(cur) == SplitPath(cur).0;
      }
      WalkAsWritten(Dirname(cur), path, existing)
  }

  /** A search path starting with '//' never reaches "/": the walk hangs at "//" unless a file is found first. */
  lemma DoubleSlashHangs(path: string, existing: set<string>)
    requires Join2("//", path) !in existing
    ensures WalkAsWritten("//", path, existing) == Hangs
  {
    SplitAt("//", 1);
    TwoSlashes();
    assert "//"[..2] == "//" && "//"[2..] == [];
  }

  /** The search path "//usr/src" with no source file present makes `_guess_rel_path` loop forever. */
  lemma UsrSrcHangs()
    ensures WalkAsWritten("//usr/src", "a.c", {}) == Hangs
  {
    DirnameUsrSrc();
    DirnameUsr();
    WalkOn("//usr/src", "a.c", {});
    WalkOn("//usr", "a.c", {});
    DoubleSlashHangs("a.c", {});
  }

  /** A directory that is not a stopping point, holds no `path` and has a shorter parent passes the walk to that parent. */
  lemma WalkOn(cur: string, path: string, existing: set<string>)
    requires cur != [] && cur != "/" && Join2(cur, path) !in existing && |Dirname(cur)| < |cur|
    ensures WalkAsWritten(cur, path, existing) == WalkAsWritten(Dirname(cur), path, existing)
  {
  }

  lemma DirnameUsrSrc()
    ensures Dirname("//usr/src") == "//usr"
  {
    SplitAt("//usr/src", 5);
    assert "//usr/src"[..6] == "//usr/" && "//usr/"[2] == 'u';
    assert PyStr.RStripChar("//usr/", '/') == "//usr";
  }

  lemma DirnameUsr()
    ensures Dirname("//usr") == "//"
  {
    SplitAt("//usr", 1);
    TwoSlashes();
    assert "//usr"[..2] == "//";
  }

  /** The directories the corrected walk tests: `cur` and its parents, stopping at "" or at a root of slashes. */
  function Ancestors(cur: string): seq<string>
    decreases |cur|
  {
    if cur == [] || AllSlashes(cur) then []
    else
      DirnameShorter(cur);
      [cur] + Ancestors(Dirname(cur))
  }

  /** A directory the corrected walk may test from `cur`: a non-root prefix of it. */
  predicate IsAncestor(d: string, cur: string)
  {
    d != [] && !AllSlashes(d) && |d| <= |cur| && d == cur[..|d|]
  }

  /**
   * Every directory the corrected walk tests is a prefix of where it
   * started, neither empty nor a root of slashes, and each is shorter than
   * the one before, so the walk ends.
   */
  lemma {:induction false} AncestorsSpec(cur: string)
    ensures forall k :: 0 <= k < |Ancestors(cur)| ==> IsAncestor(Ancestors(cur)[k], cur)
    ensures forall k :: 0 < k < |Ancestors(cur)| ==> |Ancestors(cur)[k]| < |Ancestors(cur)[k - 1]|
    decreases |cur|
  {
    if cur != [] && !AllSlashes(cur) {
      DirnameShorter(cur);
      var up := Dirname(cur);
      AncestorsSpec(up);
      var a := Ancestors(cur);
      var b := Ancestors(up);
      assert a == [cur] + b;
      forall k | 1 <= k < |a|
        ensures IsAncestor(a[k], cur)
        ensures |a[k]| < |a[k - 1]|
      {
        assert 0 <= k - 1 < |b|;
        var d := b[k - 1];
        assert a[k] == d;
        assert IsAncestor(d, up);
        assert cur[..|up|][..|d|] == cur[..|d|];
        if k > 1 {
          assert a[k - 1] == b[k - 2];
        }
      }
    }
  }

  /** The first directory of `dirs` under which `path` exists. */
  function FirstHit(dirs: seq<string>, path: string, existing: set<string>): Option<string>
  {
    if dirs == [] then None
    else if Join2(dirs[0], path) in existing then Some(dirs[0])
    else FirstHit(dirs[1..], path, existing)
  }

  /** The corrected walk: the first directory, from `cur` upwards, under which `path` exists. */
  function FoundDir(cur: string, path: string, existing: set<string>): Option<string>
  {
    FirstHit(Ancestors(cur), path, existing)
  }

  /** `FirstHit` finds the first directory of the list that holds `path`, and nothing when none does. */
  lemma {:induction false} FirstHitSpec(dirs: seq<string>, path: string, existing: set<string>)
    ensures var r := FirstHit(dirs, path, existing);
      (r.Some? ==>
        exists k :: 0 <= k < |dirs| && dirs[k] == r.value && Join2(dirs[k], path) in existing
          && forall m :: 0 <= m < k ==> Join2(dirs[m], path) !in existing)
      && (r.None? ==> forall k :: 0 <= k < |dirs| ==> Join2(dirs[k], path) !in existing)
  {
    if dirs != [] && Join2(dirs[0], path) !in existing {
      var b := dirs[1..];
      FirstHitSpec(b, path, existing);
      var r := FirstHit(dirs, path, existing);
      if r.Some? {
        var k :| 0 <= k < |b| && b[k] == r.value && Join2(b[k], path) in existing
          && forall m :: 0 <= m < k ==> Join2(b[m], path) !in existing;
        assert dirs[k + 1] == b[k];
        assert forall m :: 1 <= m < k + 1 ==> dirs[m] == b[m - 1];
      } else {
        assert forall m :: 1 <= m < |dirs| ==> dirs[m] == b[m - 1];
      }
    }
  }

  /** One step of the walk: test `cur`, then go on from its parent. */
  lemma FoundDirStep(cur: string, path: string, existing: set<string>)
    requires cur != [] && !AllSlashes(cur)
    ensures |Dirname(cur)| < |cur|
    ensures FoundDir(cur, path, existing) ==
      if Join2(cur, path) in existing then Some(cur) else FoundDir(Dirname(cur), path, existing)
  {
    DirnameShorter(cur);
    assert Ancestors(cur) == [cur] + Ancestors(Dirname(cur));
  }

  /** Without a leading "//", the only root of slashes is "/". */
  lemma SingleRoot(cur: string)
    requires !PyStr.StartsWith(cur, "//")
    ensures cur != [] && AllSlashes(cur) ==> cur == "/"
  {
    OneSlash();
    assert |cur| >= 2 ==> cur[..2] == [cur[0], cur[1]];
    assert |cur| == 1 ==> cur == [cur[0]];
  }

  /** The parent of a path not starting with "//" does not start with "//" either. */
  lemma DirnameNoDoubleSlash(cur: string)
    requires cur != [] && !AllSlashes(cur) && !PyStr.StartsWith(cur, "//")
    ensures !PyStr.StartsWith(Dirname(cur), "//")
  {
    DirnameShorter(cur);
    var d := Dirname(cur);
    assert |d| >= 2 ==> d[..2] == cur[..2];
  }

  /** Where the walk as written terminates, the corrected walk gives the same answer, for every search path not starting with "//". */
  lemma {:induction false} WalkAgrees(cur: string, path: string, existing: set<string>)
    requires !PyStr.StartsWith(cur, "//")
    ensures WalkAsWritten(cur, path, existing) == match FoundDir(cur, path, existing)
      case Some(d) => Hit(NormPath(Join2(d, path)))
      case None => Miss
    decreases |cur|
  {
    SingleRoot(cur);
    if cur != [] && cur != "/" {
      FoundDirStep(cur, path, existing);
    }
    if cur != [] && cur != "/" && Join2(cur, path) !in existing {
      DirnameNoDoubleSlash(cur);
      WalkAgrees(Dirname(cur), path, existing);
    }
  }

  /** The directory found by the first search path whose corrected walk finds `path`. */
  function FirstDir(searchPaths: seq<string>, path: string, existing: set<string>): Option<string>
  {
    if searchPaths == [] then None
    else match FirstDir(searchPaths[..|searchPaths| - 1], path, existing)
      case Some(d) => Some(d)
      case None => FoundDir(searchPaths[|searchPaths| - 1], path, existing)
  }

  /** The existing path `_guess_rel_path` (corrected) finds: `path` under the first directory found. */
  function FoundPath(searchPaths: seq<string>, path: string, existing: set<string>): Option<string>
  {
    match FirstDir(searchPaths, path, existing)
    case Some(d) => Some(Join2(d, path))
    case None => None
  }

  /** `_guess_rel_path` (corrected): the path found, normalised. */
  function GuessRel(searchPaths: seq<string>, path: string, existing: set<string>): Option<string>
  {
    match FoundPath(searchPaths, path, existing)
    case Some(p) => Some(NormPath(p))
    case None => None
  }

  lemma {:induction false} FirstDirSpec(searchPaths: seq<string>, path: string, existing: set<string>)
    ensures var r := FirstDir(searchPaths, path, existing);
      (r.Some? ==> exists sp :: sp in searchPaths && FoundDir(sp, path, existing) == r)
      && (r.None? <==> forall sp :: sp in searchPaths ==> FoundDir(sp, path, existing).None?)
  {
    if searchPaths != [] {
      var front := searchPaths[..|searchPaths| - 1];
      var last := searchPaths[|searchPaths| - 1];
      FirstDirSpec(front, path, existing);
      assert forall sp :: sp in searchPaths <==> sp in front || sp == last;
    }
  }

  /**
   * The path the corrected `_guess_rel_path` finds exists and is `path`
   * joined to a search path or one of its parents; nothing is found
   * exactly when no such directory holds it.
   */
  lemma FoundPathSpec(searchPaths: seq<string>, path: string, existing: set<string>)
    ensures var r := FoundPath(searchPaths, path, existing);
      r.Some? ==>
        r.value in existing && exists sp, d :: sp in searchPaths && d in Ancestors(sp) && r.value == Join2(d, path)
    ensures var r := FoundPath(searchPaths, path, existing);
      r.None? ==> forall sp, d :: sp in searchPaths && d in Ancestors(sp) ==> Join2(d, path) !in existing
  {
    FirstDirSpec(searchPaths, path, existing);
    var r := FirstDir(searchPaths, path, existing);
    if r.Some? {
      var sp :| sp in searchPaths && FoundDir(sp, path, existing) == r;
      var a := Ancestors(sp);
      FirstHitSpec(a, path, existing);
      var k :| 0 <= k < |a| && a[k] == r.value && Join2(a[k], path) in existing;
      assert a[k] in a;
    } else {
      forall sp, d | sp in searchPaths && d in Ancestors(sp)
        ensures Join2(d, path) !in existing
      {
        var a := Ancestors(sp);
        FirstHitSpec(a, path, existing);
        var k :| 0 <= k < |a| && a[k] == d;
      }
    }
  }

  /** What the corrected `_guess_rel_path` returns is the normalised form of an existing path. */
  lemma GuessRelSpec(searchPaths: seq<string>, path: string, existing: set<string>)
    ensures var r := GuessRel(searchPaths, path, existing);
      (r.Some? ==> exists q :: q in existing && r.value == NormPath(q))
      && (r.None? <==> FoundPath(searchPaths, path, existing).None?)
  {
    FoundPathSpec(searchPaths, path, existing);
    var f := FoundPath(searchPaths, path, existing);
    if f.Some? {
      assert GuessRel(searchPaths, path, existing).value == NormPath(f.value);
    }
  }

  /** `_guess_rel_path` (corrected); what the loops find is returned normalised. */
  method GuessRelPath(searchPaths: seq<string>, path: string, existing: set<string>) returns (r: Option<string>)
    ensures r == GuessRel(searchPaths, path, existing)
  {
    var found := FindRelPath(searchPaths, path, existing);
    if found.Some? {
      return Some(NormPath(found.value));
    }
    return None;
  }

  /** The two loops of `_guess_rel_path` (corrected): each search path, then its parents. */
  method FindRelPath(searchPaths: seq<string>, path: string, existing: set<string>) returns (r: Option<string>)
    ensures r == FoundPath(searchPaths, path, existing)
  {
    var i := 0;
    while i < |searchPaths|
      invariant i <= |searchPaths|
      invariant FirstDir(searchPaths[..i], path, existing) == None
    {
      var sp := searchPaths[i];
      var cur := sp;
      while cur != [] && !AllSlashes(cur)
        invariant FoundDir(sp, path, existing) == FoundDir(cur, path, existing)
        decreases |cur|
      {
        FoundDirStep(cur, path, existing);
        var test := Join2(cur, path);
        if test in existing {
          FirstDirSnoc(searchPaths, i, path, existing);
          FirstDirPrefix(searchPaths, i + 1, path, existing);
          return Some(test);
        }
        cur := Dirname(cur);
      }
      FirstDirSnoc(searchPaths, i, path, existing);
      i := i + 1;
    }
    assert searchPaths[..i] == searchPaths;
    return None;
  }

  lemma FirstDirSnoc(searchPaths: seq<string>, i: nat, path: string, existing: set<string>)
    requires i < |searchPaths|
    ensures FirstDir(searchPaths[..i + 1], path, existing) ==
      match FirstDir(searchPaths[..i], path, existing)
      case Some(d) => Some(d)
      case None => FoundDir(searchPaths[i], path, existing)
  {
    assert searchPaths[..i + 1][..i] == searchPaths[..i];
  }

  /** Once a prefix of the search paths finds a directory, the rest are not consulted. */
  lemma {:induction false} FirstDirPrefix(searchPaths: seq<string>, k: nat, path: string, existing: set<string>)
    requires k <= |searchPaths|
    requires FirstDir(searchPaths[..k], path, existing).Some?
    ensures FirstDir(searchPaths, path, existing) == FirstDir(searchPaths[..k], path, existing)
    decreases |searchPaths|
  {
    if k < |searchPaths| {
      var front := searchPaths[..|searchPaths| - 1];
      assert front[..k] == searchPaths[..k];
      FirstDirPrefix(front, k, path, existing);
    } else {
      assert searchPaths[..k] == searchPaths;
    }
  }

  /** The suffixes `os.path.join(*components[i:])` tried for an absolute path, longest first. */
  function Suffixes(c: seq<string>): seq<string>
  {
    seq(|c|, i requires 0 <= i < |c| => JoinAll(c[i], c[i + 1..]))
  }

  /** The first suffix that the walk finds. */
  function FirstSuffix(suffixes: seq<string>, searchPaths: seq<string>, existing: set<string>): Option<string>
  {
    if suffixes == [] then None
    else match GuessRel(searchPaths, suffixes[0], existing)
      case Some(p) => Some(p)
      case None => FirstSuffix(suffixes[1..], searchPaths, existing)
  }

  /**
   * `guess_source_file_path`: an existing path as it is; otherwise the
   * converted path, or for an absolute one each of its suffixes, looked up
   * under the search paths and their parents; the path as given when
   * nothing is found.
   */
  function GuessSource(searchPaths: seq<string>, path: string, existing: set<string>): string
  {
    if path in existing then path
    else
      var p := ConvertPathToUnix(path);
      var found := if IsAbs(p) then FirstSuffix(Suffixes(Components(p)), searchPaths, existing)
        else GuessRel(searchPaths, p, existing);
      if found.Some? then found.value else path
  }

  lemma {:induction false} FirstSuffixSpec(suffixes: seq<string>, searchPaths: seq<string>, existing: set<string>)
    ensures var r := FirstSuffix(suffixes, searchPaths, existing);
      r.Some? ==> exists q :: q in existing && r.value == NormPath(q)
    ensures var r := FirstSuffix(suffixes, searchPaths, existing);
      r.None? <==> forall s :: s in suffixes ==> FoundPath(searchPaths, s, existing).None?
  {
    if suffixes != [] {
      FirstSuffixSpec(suffixes[1..], searchPaths, existing);
      GuessRelSpec(searchPaths, suffixes[0], existing);
      assert forall s :: s in suffixes <==> s == suffixes[0] || s in suffixes[1..];
    }
  }

  /**
   * The source path returned is the path as given, or the normalised form
   * of an existing file; the path as given comes back when it exists.
   */
  lemma GuessSourceSpec(searchPaths: seq<string>, path: string, existing: set<string>)
    ensures var r := GuessSource(searchPaths, path, existing);
      (r == path || exists q :: q in existing && r == NormPath(q))
      && (path in existing ==> r == path)
  {
    var p := ConvertPathToUnix(path);
    if path !in existing {
      if IsAbs(p) {
        FirstSuffixSpec(Suffixes(Components(p)), searchPaths, existing);
      } else {
        GuessRelSpec(searchPaths, p, existing);
      }
    }
  }

  /** The relative paths `guess_source_file_path` looks up: the suffixes of an absolute path, or the path itself. */
  function Probes(path: string): seq<string>
  {
    var p := ConvertPathToUnix(path);
    if IsAbs(p) then Suffixes(Components(p)) else [p]
  }

  /**
   * A source path that no search path nor any of their parents holds
   * (under any of the relative paths looked up) comes back as given.
   */
  lemma UnresolvedKept(searchPaths: seq<string>, path: string, existing: set<string>)
    requires path !in existing
    requires forall sp, d, s :: sp in searchPaths && d in Ancestors(sp) && s in Probes(path) ==> Join2(d, s) !in existing
    ensures GuessSource(searchPaths, path, existing) == path
  {
    var p := ConvertPathToUnix(path);
    forall s | s in Probes(path)
      ensures FoundPath(searchPaths, s, existing).None?
    {
      FoundPathSpec(searchPaths, s, existing);
    }
    if IsAbs(p) {
      FirstSuffixSpec(Suffixes(Components(p)), searchPaths, existing);
    } else {
      assert p in Probes(path);
    }
  }

  /** `guess_source_file_path` with its loop over the suffixes of an absolute path. */
  method GuessSourceFilePath(searchPaths: seq<string>, path: string, existing: set<string>) returns (r: string)
    ensures r == GuessSource(searchPaths, path, existing)
  {
    if path in existing {
      return path;
    }
    var originalPath := path;
    var p := ConvertPathToUnix(path);
    if IsAbs(p) {
      var components := SplitAll(p);
      var found := TrySuffixes(components, searchPaths, existing);
      if found.Some? {
        return found.value;
      }
      return originalPath;
    }
    var guessed := GuessRelPath(searchPaths, p, existing);
    if guessed.Some? {
      return guessed.value;
    }
    return originalPath;
  }

  /** The loop of `guess_source_file_path` over the suffixes of an absolute path, up to the first one found. */
  method TrySuffixes(components: seq<string>, searchPaths: seq<string>, existing: set<string>) returns (found: Option<string>)
    ensures found == FirstSuffix(Suffixes(components), searchPaths, existing)
  {
    ghost var suffixes := Suffixes(components);
    var i := 0;
    while i < |components|
      invariant i <= |components|
      invariant FirstSuffix(suffixes, searchPaths, existing) == FirstSuffix(suffixes[i..], searchPaths, existing)
    {
      var c := JoinAll(components[i], components[i + 1..]);
      assert suffixes[i..][0] == c && suffixes[i..][1..] == suffixes[i + 1..];
      var guessed := GuessRelPath(searchPaths, c, existing);
      if guessed.Some? {
        return guessed;
      }
      i := i + 1;
    }
    assert suffixes[i..] == [];
    return None;
  }
}
