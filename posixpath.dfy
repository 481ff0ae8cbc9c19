// The POSIX `os.path` functions the modelled code calls: `split`,
// `basename`, `dirname`, `join`, `isabs`, `splitext` and `normpath`, with
// Python 2's posixpath rules (trailing slashes of the head are dropped
// unless the head is all slashes, an absolute right operand of `join`
// discards the left one, and so on).
module PosixPath {
  import opened PyStr

  /** `s.rfind(c)` for one character. */
  function RFind(s: string, c: char): (r: int)
    ensures -1 <= r < |s|
    ensures r >= 0 ==> s[r] == c
    ensures forall j :: r < j < |s| ==> s[j] != c
  {
    if s == [] then -1 else if s[|s| - 1] == c then |s| - 1 else RFind(s[..|s| - 1], c)
  }

  predicate AllSlashes(s: string)
  {
    forall i :: 0 <= i < |s| ==> s[i] == '/'
  }

  /** `os.path.split(p)`: everything up to the last '/' and the rest. */
  function SplitPath(p: string): (r: (string, string))
    ensures r.1 == p[RFind(p, '/') + 1..]
    ensures forall j :: 0 <= j < |r.1| ==> r.1[j] != '/'
    ensures |r.0| <= RFind(p, '/') + 1 && r.0 == p[..|r.0|]
  {
    var i := RFind(p, '/') + 1;
    var head := p[..i];
    var tail := p[i..];
    if head != [] && !AllSlashes(head) then (RStripChar(head, '/'), tail) else (head, tail)
  }

  /** `os.path.basename(p)`. */
  function Basename(p: string): (r: string)
    ensures forall j :: 0 <= j < |r| ==> r[j] != '/'
    ensures EndsWith(p, r)
  {
    SplitPath(p).1
  }

  /** `os.path.dirname(p)`. */
  function Dirname(p: string): (r: string)
    ensures |r| <= |p|
  {
    SplitPath(p).0
  }

  /** `os.path.isabs(p)`. */
  predicate IsAbs(p: string)
  {
    StartsWith(p, "/")
  }

  /** `os.path.join(a, b)`. */
  function Join2(a: string, b: string): (r: string)
    ensures EndsWith(r, b)
  {
    if IsAbs(b) then b
    else if a == [] || EndsWith(a, "/") then a + b
    else a + "/" + b
  }

  /** `os.path.join(first, *rest)`: the parts are joined from left to right. */
  function JoinAll(first: string, rest: seq<string>): string
    decreases |rest|
  {
    if rest == [] then first else JoinAll(Join2(first, rest[0]), rest[1..])
  }

  predicate NoDoubleSlash(p: string)
  {
    forall i :: 0 <= i < |p| - 1 ==> !(p[i] == '/' && p[i + 1] == '/')
  }

  /**
   * Joining the two halves of `split` gives the path back, unless the head
   * lost more than one trailing slash.
   */
  lemma SplitPathJoin(p: string)
    requires NoDoubleSlash(p)
    requires SplitPath(p).0 != []
    ensures Join2(SplitPath(p).0, SplitPath(p).1) == p
  {
    var i := RFind(p, '/') + 1;
    var (head, tail) := SplitPath(p);
    assert p == p[..i] + tail;
    if AllSlashes(p[..i]) {
      assert head == p[..i];
      assert EndsWith(head, "/");
    } else {
      assert i >= 2 && p[i - 1] == '/';
      assert p[i - 2] != '/';
      assert RStripChar(p[..i], '/') == RStripChar(p[..i - 1], '/') by {
        assert p[..i][..i - 1] == p[..i - 1];
      }
      assert RStripChar(p[..i - 1], '/') == p[..i - 1];
      assert head == p[..i - 1];
      assert !EndsWith(head, "/");
      assert !IsAbs(tail);
      assert p[..i] == head + "/";
    }
  }

  predicate AllDots(s: string)
  {
    forall i :: 0 <= i < |s| ==> s[i] == '.'
  }

  /**
   * Where `splitext` cuts: the last '.' of the last component, unless only
   * dots precede it in that component; -1 when there is no extension.
   */
  function ExtensionStart(p: string): (r: int)
    ensures -1 <= r < |p|
    ensures r >= 0 ==> p[r] == '.'
  {
    var sepIndex := RFind(p, '/');
    var dotIndex := RFind(p, '.');
    if dotIndex > sepIndex && !AllDots(p[sepIndex + 1..dotIndex]) then dotIndex else -1
  }

  /** `os.path.splitext(p)`. */
  function Splitext(p: string): (r: (string, string))
    ensures r.0 + r.1 == p
    ensures r.1 != [] ==> r.1[0] == '.'
  {
    var k := ExtensionStart(p);
    if k >= 0 then (p[..k], p[k..]) else (p, [])
  }

  function Slashes(n: nat): (r: string)
    ensures |r| == n && AllSlashes(r)
  {
    if n == 0 then [] else "/" + Slashes(n - 1)
  }

  /** The component loop of `normpath`: drops "" and ".", resolves "..". */
  function NormComponents(comps: seq<string>, initialSlashes: nat, acc: seq<string>): seq<string>
    decreases |comps|
  {
    if comps == [] then acc
    else
      var c := comps[0];
      var next :=
        if c == "" || c == "." then acc
        else if c != ".." || (initialSlashes == 0 && acc == []) || (acc != [] && acc[|acc| - 1] == "..") then acc + [c]
        else if acc != [] then acc[..|acc| - 1]
        else acc;
      NormComponents(comps[1..], initialSlashes, next)
  }

  /** `os.path.normpath(p)`. */
  function NormPath(p: string): (r: string)
    ensures r != []
  {
    if p == [] then "."
    else
      var initial := if StartsWith(p, "//") && !StartsWith(p, "///") then 2 else if StartsWith(p, "/") then 1 else 0;
      var r := Slashes(initial) + PyStr.Join("/", NormComponents(PyStr.Split(p, "/"), initial, []));
      if r == [] then "." else r
  }
}
