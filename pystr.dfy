// The few Python 2 `str` operations the modelled code relies on, over
// `seq<char>`: ASCII case mapping, whitespace stripping, `find`, `split`,
// `join`, `splitlines` and `int()` in bases 10 and 16.
module PyStr {
  import opened Wrappers

  /** Python 2 `str.isspace` for one character. */
  predicate IsSpace(c: char)
  {
    c == ' ' || c == '\t' || c == '\n' || c == '\r' || c == '\U{0b}' || c == '\U{0c}'
  }

  function LowerChar(c: char): char
  {
    if 'A' <= c <= 'Z' then (c as int + 32) as char else c
  }

  /** `str.lower()` for a byte string: only ASCII letters change. */
  function Lower(s: string): (r: string)
    ensures |r| == |s|
    ensures forall i :: 0 <= i < |s| ==> r[i] == LowerChar(s[i])
  {
    if s == [] then [] else [LowerChar(s[0])] + Lower(s[1..])
  }

  lemma {:induction false} LowerIdempotent(s: string)
    ensures Lower(Lower(s)) == Lower(s)
  {
    var l := Lower(s);
    assert forall i :: 0 <= i < |s| ==> Lower(l)[i] == l[i];
  }

  function LStrip(s: string): (r: string)
    ensures |r| <= |s|
  {
    if s != [] && IsSpace(s[0]) then LStrip(s[1..]) else s
  }

  function RStrip(s: string): (r: string)
    ensures |r| <= |s|
  {
    if s != [] && IsSpace(s[|s| - 1]) then RStrip(s[..|s| - 1]) else s
  }

  /** `str.strip()` with no argument. */
  function Strip(s: string): (r: string)
    ensures |r| <= |s|
  {
    RStrip(LStrip(s))
  }

  /** `lstrip` removes exactly the leading whitespace. */
  lemma {:induction false} LStripSpec(s: string)
    ensures LStrip(s) == s[|s| - |LStrip(s)|..]
    ensures LStrip(s) != [] ==> !IsSpace(LStrip(s)[0])
    ensures forall i :: 0 <= i < |s| - |LStrip(s)| ==> IsSpace(s[i])
  {
    if s != [] && IsSpace(s[0]) {
      LStripSpec(s[1..]);
    }
  }

  /** `rstrip` removes exactly the trailing whitespace. */
  lemma {:induction false} RStripSpec(s: string)
    ensures RStrip(s) == s[..|RStrip(s)|]
    ensures RStrip(s) != [] ==> !IsSpace(RStrip(s)[|RStrip(s)| - 1])
    ensures forall i :: |RStrip(s)| <= i < |s| ==> IsSpace(s[i])
  {
    if s != [] && IsSpace(s[|s| - 1]) {
      RStripSpec(s[..|s| - 1]);
    }
  }

  /**
   * `strip` leaves no whitespace at either end and removes nothing else: the
   * result is the slice of `s` after its leading whitespace, and everything
   * around that slice is whitespace.
   */
  lemma StripSpec(s: string)
    ensures Strip(s) != [] ==> !IsSpace(Strip(s)[0]) && !IsSpace(Strip(s)[|Strip(s)| - 1])
    ensures var k := |s| - |LStrip(s)|;
      k + |Strip(s)| <= |s| && Strip(s) == s[k..k + |Strip(s)|] &&
      (forall i :: 0 <= i < k ==> IsSpace(s[i])) && (forall i :: k + |Strip(s)| <= i < |s| ==> IsSpace(s[i]))
  {
    var l := LStrip(s);
    LStripSpec(s);
    RStripSpec(l);
    var k := |s| - |l|;
    assert Strip(s) == l[..|Strip(s)|];
    assert Strip(s) == s[k..k + |Strip(s)|];
    if Strip(s) != [] {
      assert Strip(s)[0] == l[0];
    }
  }

  /** No whitespace at either end. */
  predicate Trimmed(s: string)
  {
    s == [] || (!IsSpace(s[0]) && !IsSpace(s[|s| - 1]))
  }

  /** A string with no whitespace at either end is its own `strip()`. */
  lemma StripTrimmed(s: string)
    requires Trimmed(s)
    ensures Strip(s) == s
  {
    assert LStrip(s) == s;
  }

  /** `str.rstrip(c)` for a single character `c`. */
  function RStripChar(s: string, c: char): (r: string)
    ensures |r| <= |s| && r == s[..|r|]
    ensures r != [] ==> r[|r| - 1] != c
    ensures forall i :: |r| <= i < |s| ==> s[i] == c
  {
    if s != [] && s[|s| - 1] == c then RStripChar(s[..|s| - 1], c) else s
  }

  predicate StartsWith(s: string, prefix: string)
  {
    |prefix| <= |s| && s[..|prefix|] == prefix
  }

  predicate EndsWith(s: string, suffix: string)
  {
    |suffix| <= |s| && s[|s| - |suffix|..] == suffix
  }

  predicate OccursAt(s: string, sub: string, i: int)
  {
    0 <= i && i + |sub| <= |s| && s[i..i + |sub|] == sub
  }

  function FindFrom(s: string, sub: string, k: nat): (r: int)
    ensures r == -1 || (k <= r && OccursAt(s, sub, r))
    ensures forall j :: k <= j && (r == -1 || j < r) ==> !OccursAt(s, sub, j)
    decreases |s| - k
  {
    if k + |sub| > |s| then -1
    else if s[k..k + |sub|] == sub then k
    else FindFrom(s, sub, k + 1)
  }

  /** `str.find(sub)`: the first index where `sub` occurs, or -1. */
  function Find(s: string, sub: string): (r: int)
    ensures r == -1 || OccursAt(s, sub, r)
    ensures forall j :: 0 <= j && (r == -1 || j < r) ==> !OccursAt(s, sub, j)
  {
    FindFrom(s, sub, 0)
  }

  /** The `in` operator on strings. */
  predicate Contains(s: string, sub: string)
  {
    Find(s, sub) >= 0
  }

  lemma ContainsIff(s: string, sub: string)
    ensures Contains(s, sub) <==> exists j :: OccursAt(s, sub, j)
  {
  }

  /** A one-character string occurs exactly where that character does. */
  lemma ContainsChar(s: string, c: char)
    ensures Contains(s, [c]) <==> exists i :: 0 <= i < |s| && s[i] == c
  {
    if Contains(s, [c]) {
      var r := Find(s, [c]);
      assert s[r..r + 1] == [c];
      assert s[r] == c;
    }
    forall i | 0 <= i < |s| && s[i] == c ensures Contains(s, [c])
    {
      assert s[i..i + 1] == [c];
      assert OccursAt(s, [c], i);
    }
  }

  /** The first `c` at or after `k` is at `m` when `m` holds `c` and nothing between does. */
  lemma FindFromChar(s: string, c: char, k: nat, m: nat)
    requires k <= m < |s| && s[m] == c
    requires forall j :: k <= j < m ==> s[j] != c
    ensures FindFrom(s, [c], k) == m
  {
    assert OccursAt(s, [c], m) by { assert s[m..m + 1] == [c]; }
    var r := FindFrom(s, [c], k);
    if r != -1 {
      assert s[r..r + 1] == [c];
      assert s[r] == c;
    }
  }

  /** A string in which the character `c` does not occur does not contain `[c]`. */
  lemma NotContainsChar(s: string, c: char)
    requires forall i :: 0 <= i < |s| ==> s[i] != c
    ensures !Contains(s, [c])
  {
    forall j | 0 <= j < |s| ensures !OccursAt(s, [c], j)
    {
      assert j + 1 <= |s| ==> s[j..j + 1] == [s[j]];
    }
  }

  /** `str.split(sep)` for a non-empty separator and no limit. */
  function Split(s: string, sep: string): (r: seq<string>)
    requires |sep| > 0
    ensures |r| >= 1
    decreases |s|
  {
    var i := Find(s, sep);
    if i < 0 then [s] else [s[..i]] + Split(s[i + |sep|..], sep)
  }

  /** `sep.join(parts)`. */
  function Join(sep: string, parts: seq<string>): string
  {
    if parts == [] then []
    else if |parts| == 1 then parts[0]
    else parts[0] + sep + Join(sep, parts[1..])
  }

  lemma JoinCons(sep: string, a: string, rest: seq<string>)
    requires |rest| >= 1
    ensures Join(sep, [a] + rest) == a + sep + Join(sep, rest)
  {
    assert ([a] + rest)[1..] == rest;
  }

  /** Splitting then joining on the same separator gives the string back. */
  lemma {:induction false} JoinSplit(s: string, sep: string)
    requires |sep| > 0
    ensures Join(sep, Split(s, sep)) == s
    decreases |s|
  {
    var i := Find(s, sep);
    if i < 0 {
      assert Split(s, sep) == [s];
    } else {
      var head, rest := s[..i], s[i + |sep|..];
      var tail := Split(rest, sep);
      assert Split(s, sep) == [head] + tail;
      JoinSplit(rest, sep);
      JoinCons(sep, head, tail);
      assert s == head + sep + rest by {
        assert s[i..i + |sep|] == sep;
      }
    }
  }

  /** No piece produced by `split` contains the separator. */
  lemma {:induction false} SplitPiecesFree(s: string, sep: string)
    requires |sep| > 0
    ensures forall p :: p in Split(s, sep) ==> !Contains(p, sep)
    decreases |s|
  {
    var i := Find(s, sep);
    if i >= 0 {
      SplitPiecesFree(s[i + |sep|..], sep);
      var head := s[..i];
      if Contains(head, sep) {
        var j := Find(head, sep);
        assert s[j..j + |sep|] == head[j..j + |sep|];
        assert OccursAt(s, sep, j);
        assert false;
      }
    }
  }

  /** `split` yields more than one piece exactly when the separator occurs. */
  lemma SplitContains(s: string, sep: string)
    requires |sep| > 0
    ensures |Split(s, sep)| >= 2 <==> Contains(s, sep)
    ensures !Contains(s, sep) ==> Split(s, sep) == [s]
  {
  }

  /** Joining pieces free of a one-character separator, then splitting, gives the pieces back. */
  lemma {:induction false} SplitJoin(parts: seq<string>, sep: string)
    requires |sep| == 1 && |parts| >= 1
    requires forall p :: p in parts ==> !Contains(p, sep)
    ensures Split(Join(sep, parts), sep) == parts
  {
    var s := Join(sep, parts);
    var head := parts[0];
    assert head in parts;
    if |parts| == 1 {
      assert s == head;
      assert Find(s, sep) < 0;
    } else {
      var rest := Join(sep, parts[1..]);
      assert s == head + sep + rest;
      assert s[..|head|] == head;
      assert OccursAt(s, sep, |head|);
      forall j | 0 <= j < |head| ensures !OccursAt(s, sep, j)
      {
        if OccursAt(s, sep, j) {
          assert s[j..j + 1] == head[j..j + 1];
          assert head[j..j + 1] == sep;
          assert OccursAt(head, sep, j);
          assert false;
        }
      }
      assert Find(s, sep) == |head|;
      assert s[|head| + 1..] == rest;
      SplitJoin(parts[1..], sep);
    }
  }

  predicate IsLineBreak(c: char)
  {
    c == '\n' || c == '\r'
  }

  function LineEnd(s: string, k: nat): (r: nat)
    requires k <= |s|
    ensures k <= r <= |s|
    ensures r < |s| ==> IsLineBreak(s[r])
    ensures forall j :: k <= j < r ==> !IsLineBreak(s[j])
    decreases |s| - k
  {
    if k == |s| || IsLineBreak(s[k]) then k else LineEnd(s, k + 1)
  }

  /** `str.splitlines()` of a Python 2 byte string: breaks at "\n", "\r" and "\r\n". */
  function SplitLines(s: string): (r: seq<string>)
    ensures forall l :: l in r ==> forall j :: 0 <= j < |l| ==> !IsLineBreak(l[j])
    decreases |s|
  {
    if |s| == 0 then []
    else
      var k := LineEnd(s, 0);
      if k == |s| then [s]
      else
        var next := if s[k] == '\r' && k + 1 < |s| && s[k + 1] == '\n' then k + 2 else k + 1;
        [s[..k]] + SplitLines(s[next..])
  }

  function DigitValue(c: char): (r: int)
    ensures -1 <= r < 16
  {
    if '0' <= c <= '9' then c as int - '0' as int
    else if 'a' <= c <= 'f' then c as int - 'a' as int + 10
    else if 'A' <= c <= 'F' then c as int - 'A' as int + 10
    else -1
  }

  predicate AllDigits(s: string, base: nat)
  {
    forall i :: 0 <= i < |s| ==> 0 <= DigitValue(s[i]) < base
  }

  /** The value of a digit string, most significant digit first. */
  function DigitsValue(s: string, base: nat): (r: nat)
    requires AllDigits(s, base)
  {
    if s == [] then 0 else DigitsValue(s[..|s| - 1], base) * base + DigitValue(s[|s| - 1])
  }

  /**
   * `int(s, base)` for base 10 or 16: surrounding whitespace is ignored, a
   * sign is allowed, base 16 accepts a "0x"/"0X" prefix, and at least one
   * digit must follow. `None` is the ValueError case.
   */
  function ParseInt(s: string, base: nat): (r: Option<int>)
    requires base == 10 || base == 16
    ensures r.Some? ==> exists i :: 0 <= i < |s| && 0 <= DigitValue(s[i]) < base
  {
    var t := Strip(s);
    var neg := |t| > 0 && t[0] == '-';
    var body := if |t| > 0 && (t[0] == '-' || t[0] == '+') then t[1..] else t;
    var digits :=
      if base == 16 && |body| >= 2 && body[0] == '0' && (body[1] == 'x' || body[1] == 'X')
      then body[2..] else body;
    if |digits| == 0 || !AllDigits(digits, base) then None
    else
      ParseIntWitness(s, t, body, digits, base);
      var v: int := DigitsValue(digits, base);
      Some(if neg then -v else v)
  }

  lemma ParseIntWitness(s: string, t: string, body: string, digits: string, base: nat)
    requires t == Strip(s)
    requires body == t || (|t| > 0 && body == t[1..])
    requires digits == body || (|body| >= 2 && digits == body[2..])
    requires |digits| > 0 && AllDigits(digits, base)
    ensures exists i :: 0 <= i < |s| && 0 <= DigitValue(s[i]) < base
  {
    var l := LStrip(s);
    LStripSpec(s);
    RStripSpec(l);
    assert t == RStrip(l) && t == l[..|t|] && l == s[|s| - |l|..];
    var off := |s| - |l| + (|t| - |body|) + (|body| - |digits|);
    assert digits[0] == s[off];
  }

  function DigitChar(d: nat): (c: char)
    requires d < 10
    ensures DigitValue(c) == d
  {
    ('0' as int + d) as char
  }

  /** The decimal digits of `n`, as `str` would print them. */
  function NatDigits(n: nat): (r: string)
    ensures |r| > 0 && AllDigits(r, 10)
    ensures forall i :: 0 <= i < |r| ==> !IsSpace(r[i]) && r[i] != '-' && r[i] != '+'
    decreases n
  {
    if n < 10 then [DigitChar(n)] else NatDigits(n / 10) + [DigitChar(n % 10)]
  }

  /** `str(n)` for an int. */
  function IntToString(n: int): (r: string)
    ensures |r| > 0
  {
    if n < 0 then "-" + NatDigits(-n) else NatDigits(n)
  }

  lemma {:induction false} NatDigitsValue(n: nat)
    ensures DigitsValue(NatDigits(n), 10) == n
    decreases n
  {
    var d := NatDigits(n);
    if n >= 10 {
      NatDigitsValue(n / 10);
      assert d[..|d| - 1] == NatDigits(n / 10);
    }
  }

  /** `int(str(n))` gives `n` back. */
  lemma ParseIntToString(n: int)
    ensures ParseInt(IntToString(n), 10) == Some(n)
  {
    var s := IntToString(n);
    var m := if n < 0 then -n else n;
    NatDigitsValue(m);
    assert !IsSpace(s[0]) && !IsSpace(s[|s| - 1]);
    assert LStrip(s) == s;
    assert RStrip(s) == s;
    if n < 0 {
      assert s[1..] == NatDigits(m);
    }
  }

  /** `str(n)` never contains a space, so it survives `split(' ')`. */
  lemma IntToStringHasNoSpace(n: int)
    ensures !Contains(IntToString(n), " ")
  {
    var s := IntToString(n);
    forall j | 0 <= j < |s| ensures !OccursAt(s, " ", j)
    {
      if OccursAt(s, " ", j) {
        assert s[j..j + 1][0] == s[j];
        assert IsSpace(s[j]);
        assert false;
      }
    }
  }
}
