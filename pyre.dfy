// The two regular expressions of the INF parser, `\[(.+)\]` and `(%.+%)`,
// on single lines: both are an opening delimiter, a greedy `.+` and a
// closing delimiter. Also `str.replace`, which `expand_key` applies to what
// the second one finds.
module PyRe {
  import opened Wrappers
  import opened PyStr
  import opened PosixPath

  /** The first index in `[k, hi)` holding `c`, or -1. */
  function FindCharIn(s: string, c: char, k: nat, hi: nat): (r: int)
    requires hi <= |s|
    ensures r == -1 || (k <= r < hi && s[r] == c)
    ensures forall j :: k <= j < hi && (r == -1 || j < r) ==> s[j] != c
    decreases hi - k
  {
    if k >= hi then -1 else if s[k] == c then k else FindCharIn(s, c, k + 1, hi)
  }

  /**
   * `re.search(open + '(.+)' + close, s)` on a line: the greedy `.+` makes
   * the match start at the first `open` that has a `close` at least two
   * places further on, and end at the last `close` of the line. The result
   * is the pair of delimiter positions; the group lies strictly between them.
   */
  function GreedySearch(s: string, open: char, close: char): (r: Option<(nat, nat)>)
    ensures r.None? <==> forall i, j :: 0 <= i && i + 2 <= j < |s| ==> !(s[i] == open && s[j] == close)
    ensures r.Some? ==> r.value.0 + 2 <= r.value.1 < |s| && s[r.value.0] == open && s[r.value.1] == close
    ensures r.Some? ==> forall j :: r.value.1 < j < |s| ==> s[j] != close
    ensures r.Some? ==> forall i :: 0 <= i < r.value.0 ==> s[i] != open
  {
    var last := RFind(s, close);
    if last < 2 then None
    else
      var first := FindCharIn(s, open, 0, last - 1);
      if first < 0 then None else Some((first, last))
  }

  /** `s.replace(pat, rep)`: every non-overlapping occurrence of `pat`, left to right. */
  function Replace(s: string, pat: string, rep: string): (r: string)
    requires |pat| > 0
    ensures !Contains(s, pat) ==> r == s
    decreases |s|
  {
    var i := Find(s, pat);
    if i < 0 then s else s[..i] + rep + Replace(s[i + |pat|..], pat, rep)
  }

  /** Replacing a pattern that occurs nowhere but at the very start swaps that prefix. */
  lemma ReplacePrefix(pat: string, rest: string, rep: string)
    requires |pat| > 0 && !Contains(rest, pat)
    ensures Replace(pat + rest, pat, rep) == rep + rest
  {
    var s := pat + rest;
    assert s[0..|pat|] == pat;
    assert OccursAt(s, pat, 0);
    assert s[|pat|..] == rest;
  }

  /** Replacing a whole string by itself gives the replacement. */
  lemma ReplaceWhole(pat: string, rep: string)
    requires |pat| > 0
    ensures Replace(pat, pat, rep) == rep
  {
    ReplacePrefix(pat, [], rep);
    assert pat + [] == pat && rep + [] == rep;
  }
}
