// execution_trace/trace_entries.py, class TraceTestCase: the payload of a
// test case item is a run of <header, name, data> records; the names have the
// form vXXX_name_YYY and the parsed test case lists each variable at index XXX.
module TraceTestCases {
  import opened Wrappers
  import opened PyStruct

  type Bytes = seq<Byte>

  /** A dictionary as an association list with distinct keys, in insertion order. */
  type Dict = seq<(Bytes, Bytes)>

  predicate DistinctKeys(d: Dict)
  {
    forall i, j :: 0 <= i < j < |d| ==> d[i].0 != d[j].0
  }

  /** `d[k] = v`: an existing key keeps its place and takes the new value; a new key goes last. */
  function Assign(d: Dict, k: Bytes, v: Bytes): (r: Dict)
    ensures |r| == |d| || |r| == |d| + 1
  {
    if d == [] then [(k, v)]
    else if d[0].0 == k then [(k, v)] + d[1..]
    else [d[0]] + Assign(d[1..], k, v)
  }

  /** `k in d` and `d[k]`. */
  function Lookup(d: Dict, k: Bytes): Option<Bytes>
  {
    if d == [] then None else if d[0].0 == k then Some(d[0].1) else Lookup(d[1..], k)
  }

  /** After `d[k] = v` the key reads `v`, every other key reads as before, and the keys stay distinct. */
  lemma {:induction false} AssignSpec(d: Dict, k: Bytes, v: Bytes, k': Bytes)
    requires DistinctKeys(d)
    ensures DistinctKeys(Assign(d, k, v))
    ensures Lookup(Assign(d, k, v), k') == if k' == k then Some(v) else Lookup(d, k')
  {
    if d != [] {
      var r := Assign(d, k, v);
      if d[0].0 == k {
        assert r[1..] == d[1..];
        assert forall j :: 0 < j < |d| ==> d[j].0 != k by {
          forall j | 0 < j < |d|
            ensures d[j].0 != k
          {
            assert d[0].0 != d[j].0;
          }
        }
      } else {
        assert DistinctKeys(d[1..]) by {
          forall i, j | 0 <= i < j < |d| - 1
            ensures d[1..][i].0 != d[1..][j].0
          {
            assert d[1..][i] == d[i + 1] && d[1..][j] == d[j + 1];
          }
        }
        AssignSpec(d[1..], k, v, k');
        AssignKeys(d[1..], k, v);
        assert r[1..] == Assign(d[1..], k, v);
        forall j | 0 < j < |r|
          ensures r[j].0 != d[0].0
        {
          assert r[j] == Assign(d[1..], k, v)[j - 1];
          if r[j].0 != k {
            var i :| 0 <= i < |d[1..]| && d[1..][i].0 == r[j].0;
            assert d[1..][i] == d[i + 1];
          } else {
            assert d[0].0 != k;
          }
        }
      }
    }
  }

  /** Every key of `Assign(d, k, v)` is `k` or a key of `d`. */
  lemma {:induction false} AssignKeys(d: Dict, k: Bytes, v: Bytes)
    ensures forall j :: 0 <= j < |Assign(d, k, v)| ==>
      (exists i :: 0 <= i < |d| && d[i].0 == Assign(d, k, v)[j].0) || Assign(d, k, v)[j].0 == k
  {
    if d != [] && d[0].0 != k {
      AssignKeys(d[1..], k, v);
      var r := Assign(d, k, v);
      forall j | 0 < j < |r|
        ensures (exists i :: 0 <= i < |d| && d[i].0 == r[j].0) || r[j].0 == k
      {
        assert r[j] == Assign(d[1..], k, v)[j - 1];
        if r[j].0 != k {
          var i :| 0 <= i < |d[1..]| && d[1..][i].0 == r[j].0;
          assert d[i + 1] == d[1..][i];
        }
      }
      assert r[0] == d[0];
    } else if d != [] {
      var r := Assign(d, k, v);
      forall j | 0 < j < |r|
        ensures exists i :: 0 <= i < |d| && d[i].0 == r[j].0
      {
        assert r[j] == d[j];
      }
    }
  }

  // ---------------------------------------------------------------------
  // _initialize_test_case_items

  /** `s[:n]`. */
  function Take(s: Bytes, n: nat): Bytes
  {
    if n <= |s| then s[..n] else s
  }

  const RecordHeader: seq<Code> := [UInt(4), UInt(4)]

  /** The two sizes of a record header, or a `struct.error` when it is not 8 bytes long. */
  function RecordSizes(header: Bytes): (r: Result<(nat, nat)>)
    ensures r.Ok? <==> |header| == 8
    ensures r.Ok? ==> r.value == (FromLE(header[..4]), FromLE(header[4..]))
    ensures r.Fail? ==> r.error == StructError
  {
    assert Size(RecordHeader) == 8 by {
      assert Size(RecordHeader[1..]) == 4;
    }
    var f :- Unpack(RecordHeader, header);
    assert f[1] == UnpackAll(RecordHeader[1..], header[4..])[0];
    assert header[4..][..4] == header[4..];
    Ok((f[0].n, f[1].n))
  }

  /** The name and the data of a record, or a `struct.error` when fewer bytes are left than the sizes ask for. */
  function RecordBody(rest: Bytes, nameSize: nat, dataSize: nat): (r: Result<(Bytes, Bytes)>)
    ensures r.Ok? <==> |rest| >= nameSize + dataSize
    ensures r.Ok? ==> r.value == (rest[..nameSize], rest[nameSize..nameSize + dataSize])
    ensures r.Fail? ==> r.error == StructError
  {
    var codes := [Chars(nameSize), Chars(dataSize)];
    assert Size(codes) == nameSize + dataSize by {
      assert Size(codes[1..]) == dataSize;
    }
    var f :- Unpack(codes, Take(rest, nameSize + dataSize));
    var body := Take(rest, nameSize + dataSize);
    assert f[1] == UnpackAll(codes[1..], body[nameSize..])[0];
    assert body[..nameSize] == rest[..nameSize];
    assert body[nameSize..][..dataSize] == rest[nameSize..nameSize + dataSize];
    Ok((f[0].b, f[1].b))
  }

  /**
   * The records from `data` on, each stored into `d`: a record header of two
   * 32-bit sizes, then that many bytes of name and of data; a short header
   * or a short record is a `struct.error`.
   */
  function ReadFrom(d: Dict, data: Bytes): Result<Dict>
    decreases |data|
  {
    if data == [] then Ok(d)
    else
      var sizes :- RecordSizes(Take(data, 8));
      var rest := data[8..];
      var item :- RecordBody(rest, sizes.0, sizes.1);
      ReadFrom(Assign(d, item.0, item.1), rest[sizes.0 + sizes.1..])
  }

  /** One record: the two sizes as little-endian 32-bit numbers, then the name and the data. */
  function Record(name: Bytes, value: Bytes): Bytes
    requires |name| < Pow256(4) && |value| < Pow256(4)
  {
    LE(|name|, 4) + LE(|value|, 4) + name + value
  }

  /** Reading a record stores its name and data and goes on after it. */
  lemma ReadRecord(d: Dict, name: Bytes, value: Bytes, more: Bytes)
    requires |name| < Pow256(4) && |value| < Pow256(4)
    ensures ReadFrom(d, Record(name, value) + more) == ReadFrom(Assign(d, name, value), more)
  {
    var data := Record(name, value) + more;
    var header := LE(|name|, 4) + LE(|value|, 4);
    assert data == header + (name + value + more);
    assert Take(data, 8) == header;
    assert header[..4] == LE(|name|, 4) && header[4..] == LE(|value|, 4);
    FromLEOfLE(|name|, 4);
    FromLEOfLE(|value|, 4);
    var rest := data[8..];
    assert rest == name + value + more;
    assert rest[..|name|] == name && rest[|name|..|name| + |value|] == value;
    assert rest[|name| + |value|..] == more;
  }

  /** Data that ends inside a record header is a `struct.error`. */
  lemma ShortHeader(d: Dict, data: Bytes)
    requires 0 < |data| < 8
    ensures ReadFrom(d, data) == Fail(StructError)
  {
  }

  /** `_initialize_test_case_items`: the loop that consumes the payload. */
  method ReadTestCaseItems(data: Bytes) returns (r: Result<Dict>)
    ensures r == ReadFrom([], data)
  {
    var testcase: Dict := [];
    var rest := data;
    while rest != []
      invariant ReadFrom([], data) == ReadFrom(testcase, rest)
      decreases |rest|
    {
      var sizes := RecordSizes(Take(rest, 8));
      if sizes.Fail? {
        return Fail(sizes.error);
      }
      var (nameSize, dataSize) := sizes.value;
      rest := rest[8..];
      var tc := RecordBody(rest, nameSize, dataSize);
      if tc.Fail? {
        return Fail(tc.error);
      }
      rest := rest[nameSize + dataSize..];
      testcase := Assign(testcase, tc.value.0, tc.value.1);
    }
    r := Ok(testcase);
  }

  // ---------------------------------------------------------------------
  // ENTRY_PATTERN = r'^v(\d+)_(.+?)_\d+$'

  const V: Byte := 118          // 'v'
  const Underscore: Byte := 95  // '_'
  const Newline: Byte := 10     // '\n'

  predicate IsDigit(b: Byte)
  {
    48 <= b <= 57
  }

  predicate AllDigits(s: Bytes)
  {
    forall i :: 0 <= i < |s| ==> IsDigit(s[i])
  }

  /** `int()` of a digit string. */
  function DigitsValue(s: Bytes): nat
    requires AllDigits(s)
  {
    if s == [] then 0 else DigitsValue(s[..|s| - 1]) * 10 + (s[|s| - 1] - 48)
  }

  function LeadingDigits(s: Bytes): (n: nat)
    ensures n <= |s| && AllDigits(s[..n])
    ensures n < |s| ==> !IsDigit(s[n])
  {
    if s != [] && IsDigit(s[0]) then
      var n := 1 + LeadingDigits(s[1..]);
      assert forall i :: 0 < i < n ==> s[..n][i] == s[1..][..n - 1][i - 1];
      n
    else 0
  }

  /** The index of the last `b` in `s`, or -1. */
  function LastIndex(s: Bytes, b: Byte): (p: int)
    ensures -1 <= p < |s|
    ensures p >= 0 ==> s[p] == b
    ensures forall i :: p < i < |s| ==> s[i] != b
  {
    if s == [] then -1
    else if s[|s| - 1] == b then |s| - 1
    else LastIndex(s[..|s| - 1], b)
  }

  /**
   * A name of the pattern, taken apart: "v", the local sequence number,
   * "_", a non-empty variable name without a newline (`.` does not match
   * one), "_", the absolute sequence number, and an optional final newline
   * (`$` also matches just before one).
   */
  predicate Decomposes(k: Bytes, local: Bytes, name: Bytes, absolute: Bytes, newline: bool)
  {
    k == [V] + local + [Underscore] + name + [Underscore] + absolute + (if newline then [Newline] else []) &&
    |local| > 0 && AllDigits(local) &&
    |name| > 0 && Newline !in name &&
    |absolute| > 0 && AllDigits(absolute)
  }

  /** The regular expression's `$`: the end of the string, or just before a final newline. */
  function StripNewline(t: Bytes): (u: Bytes)
    ensures if |t| > 0 && t[|t| - 1] == Newline then t == u + [Newline] else u == t
  {
    if |t| > 0 && t[|t| - 1] == Newline then t[..|t| - 1] else t
  }

  /** `(.+?)_\d+` against what is left before `$`: the variable name, or no match. */
  function MatchTail(u: Bytes): Option<Bytes>
  {
    var p := LastIndex(u, Underscore);
    if p < 1 || p + 1 == |u| || !AllDigits(u[p + 1..]) || Newline in u[..p] then None
    else Some(u[..p])
  }

  /** `ENTRY_REGEX.match(k)`: the local sequence number and the variable name, or no match. */
  function MatchEntry(k: Bytes): Option<(nat, Bytes)>
  {
    if k == [] || k[0] != V then None else MatchAfterV(k[1..])
  }

  /** `(\d+)_(.+?)_\d+$` after the leading "v". */
  function MatchAfterV(s: Bytes): Option<(nat, Bytes)>
  {
    var n := LeadingDigits(s);
    if n == 0 || n >= |s| || s[n] != Underscore then None
    else
      match MatchTail(StripNewline(s[n + 1..]))
      case None => None
      case Some(name) => Some((DigitsValue(s[..n]), name))
  }

  lemma MatchTailSound(u: Bytes)
    requires MatchTail(u).Some?
    ensures var name := MatchTail(u).value;
      |name| > 0 && Newline !in name && |name| + 1 < |u| &&
      u == name + [Underscore] + u[|name| + 1..] && AllDigits(u[|name| + 1..])
  {
    var p := LastIndex(u, Underscore);
    assert u == u[..p] + [Underscore] + u[p + 1..];
  }

  lemma MatchTailComplete(name: Bytes, absolute: Bytes)
    requires |name| > 0 && Newline !in name && |absolute| > 0 && AllDigits(absolute)
    ensures MatchTail(name + [Underscore] + absolute) == Some(name)
  {
    var u := name + [Underscore] + absolute;
    LastUnderscore(name, absolute);
    assert u[..|name|] == name && u[|name| + 1..] == absolute;
  }

  /** What the pattern matches is a name of that form, with its local number and variable name. */
  lemma MatchEntrySound(k: Bytes)
    requires MatchEntry(k).Some?
    ensures exists local, absolute, newline ::
      (Decomposes(k, local, MatchEntry(k).value.1, absolute, newline) &&
       MatchEntry(k).value.0 == DigitsValue(local))
  {
    var s := k[1..];
    assert k == [V] + s;
    assert MatchEntry(k) == MatchAfterV(s);
    var local, name, absolute, newline := MatchAfterVSound(s);
    var nl: Bytes := if newline then [Newline] else [];
    Prepend([V], local, name, absolute, nl);
    assert Decomposes(k, local, name, absolute, newline);
  }

  lemma MatchAfterVSound(s: Bytes) returns (local: Bytes, name: Bytes, absolute: Bytes, newline: bool)
    requires MatchAfterV(s).Some?
    ensures |local| > 0 && AllDigits(local) && MatchAfterV(s) == Some((DigitsValue(local), name))
    ensures s == local + [Underscore] + name + [Underscore] + absolute + (if newline then [Newline] else [])
    ensures |name| > 0 && Newline !in name
    ensures |absolute| > 0 && AllDigits(absolute)
  {
    var n := LeadingDigits(s);
    local := s[..n];
    var t := s[n + 1..];
    var u := StripNewline(t);
    newline := |t| > 0 && t[|t| - 1] == Newline;
    name := MatchTail(u).value;
    MatchTailSound(u);
    absolute := u[|name| + 1..];
    StripNewlineSplit(t);
    SplitAt(s, n);
    Associate(local, name, absolute, if newline then [Newline] else []);
  }

  lemma Associate(local: Bytes, name: Bytes, absolute: Bytes, nl: Bytes)
    ensures local + [Underscore] + (name + [Underscore] + absolute + nl) ==
      local + [Underscore] + name + [Underscore] + absolute + nl
  {
  }

  lemma Prepend(x: Bytes, local: Bytes, name: Bytes, absolute: Bytes, nl: Bytes)
    ensures x + (local + [Underscore] + name + [Underscore] + absolute + nl) ==
      x + local + [Underscore] + name + [Underscore] + absolute + nl
  {
  }

  lemma StripNewlineSplit(t: Bytes)
    ensures t == StripNewline(t) + if |t| > 0 && t[|t| - 1] == Newline then [Newline] else []
  {
  }

  lemma SplitAt(s: Bytes, n: nat)
    requires n < |s|
    ensures s == s[..n] + [s[n]] + s[n + 1..]
  {
  }

  /** Every name of that form matches, with its own local number and variable name. */
  lemma MatchEntryComplete(k: Bytes, local: Bytes, name: Bytes, absolute: Bytes, newline: bool)
    requires Decomposes(k, local, name, absolute, newline)
    ensures MatchEntry(k) == Some((DigitsValue(local), name))
  {
    var nl: Bytes := if newline then [Newline] else [];
    var t := name + [Underscore] + absolute + nl;
    var x := local + [Underscore] + t;
    Associate(local, name, absolute, nl);
    Prepend([V], local, name, absolute, nl);
    assert k == [V] + x;
    assert k[1..] == x;
    MatchAfterVComplete(local, t, name, absolute, newline);
  }

  lemma MatchAfterVComplete(local: Bytes, t: Bytes, name: Bytes, absolute: Bytes, newline: bool)
    requires |local| > 0 && AllDigits(local)
    requires |name| > 0 && Newline !in name && |absolute| > 0 && AllDigits(absolute)
    requires t == name + [Underscore] + absolute + (if newline then [Newline] else [])
    ensures MatchAfterV(local + [Underscore] + t) == Some((DigitsValue(local), name))
  {
    AfterNumber(local, t);
    StripAbsolute(name, absolute, newline, t);
    MatchTailComplete(name, absolute);
  }

  /** After the local number and its underscore, the rest is matched against `(.+?)_\d+$`. */
  lemma AfterNumber(local: Bytes, t: Bytes)
    requires |local| > 0 && AllDigits(local)
    ensures MatchAfterV(local + [Underscore] + t) ==
      match MatchTail(StripNewline(t)) case None => None case Some(name) => Some((DigitsValue(local), name))
  {
    var s := local + [Underscore] + t;
    assert s == local + ([Underscore] + t);
    LeadingDigitsOf(local, [Underscore] + t);
    var n := |local|;
    assert s[..n] == local && s[n] == Underscore;
    assert s[n + 1..] == t;
  }

  /** `$` leaves the name, the underscore and the absolute number, with or without the final newline. */
  lemma StripAbsolute(name: Bytes, absolute: Bytes, newline: bool, t: Bytes)
    requires |absolute| > 0 && AllDigits(absolute)
    requires t == name + [Underscore] + absolute + (if newline then [Newline] else [])
    ensures StripNewline(t) == name + [Underscore] + absolute
  {
    var u := name + [Underscore] + absolute;
    if !newline {
      assert t == u;
      assert t[|t| - 1] == absolute[|absolute| - 1];
    } else {
      assert t[..|t| - 1] == u;
    }
  }

  lemma LeadingDigitsOf(digits: Bytes, tail: Bytes)
    requires AllDigits(digits) && |tail| > 0 && !IsDigit(tail[0])
    ensures LeadingDigits(digits + tail) == |digits|
    decreases |digits|
  {
    if digits == [] {
      assert digits + tail == tail;
    } else {
      assert (digits + tail)[1..] == digits[1..] + tail;
      LeadingDigitsOf(digits[1..], tail);
    }
  }

  lemma LastUnderscore(name: Bytes, absolute: Bytes)
    requires AllDigits(absolute)
    ensures LastIndex(name + [Underscore] + absolute, Underscore) == |name|
    decreases |absolute|
  {
    var s := name + [Underscore] + absolute;
    if absolute == [] {
      assert s[|s| - 1] == Underscore;
    } else {
      assert s[|s| - 1] == absolute[|absolute| - 1];
      var shorter := absolute[..|absolute| - 1];
      assert s[..|s| - 1] == name + [Underscore] + shorter;
      LastUnderscore(name, shorter);
    }
  }

  // ---------------------------------------------------------------------
  // _parse_test_case_entries

  /** A test case: per local sequence number, the variable name and its data, or a gap. */
  type TestCase = seq<Option<(Bytes, Bytes)>>

  /** `ret[x] = e` after padding `ret` with None up to index `x`. */
  function Place(ret: TestCase, x: nat, e: (Bytes, Bytes)): (r: TestCase)
    ensures |r| == if x < |ret| then |ret| else x + 1
    ensures forall i :: 0 <= i < |r| ==> r[i] == if i == x then Some(e) else if i < |ret| then ret[i] else None
  {
    var padded := if x < |ret| then ret else ret + seq(x + 1 - |ret|, _ => None);
    padded[x := Some(e)]
  }

  /** The test case the entries give, in the order the entries are visited. */
  function EntriesOf(entries: Dict): TestCase
  {
    if entries == [] then []
    else
      var ret := EntriesOf(entries[..|entries| - 1]);
      var (k, v) := entries[|entries| - 1];
      match MatchEntry(k)
      case None => ret
      case Some((x, name)) => Place(ret, x, (name, v))
  }

  /** The last matching entry with local sequence number `i`, as (variable name, data). */
  function LastAt(entries: Dict, i: nat): Option<(Bytes, Bytes)>
  {
    if entries == [] then None
    else
      var (k, v) := entries[|entries| - 1];
      var m := MatchEntry(k);
      if m.Some? && m.value.0 == i then Some((m.value.1, v)) else LastAt(entries[..|entries| - 1], i)
  }

  /** One more than the largest local sequence number among the matching entries, or 0. */
  function Bound(entries: Dict): nat
  {
    if entries == [] then 0
    else
      var b := Bound(entries[..|entries| - 1]);
      var m := MatchEntry(entries[|entries| - 1].0);
      if m.Some? && m.value.0 + 1 > b then m.value.0 + 1 else b
  }

  /**
   * The parsed test case is as long as the largest local sequence number
   * allows; index `i` holds the last matching entry numbered `i`, and a
   * number no entry has is a None gap.
   */
  lemma {:induction false} EntriesOfSpec(entries: Dict)
    ensures |EntriesOf(entries)| == Bound(entries)
    ensures forall i :: 0 <= i < |EntriesOf(entries)| ==> EntriesOf(entries)[i] == LastAt(entries, i)
    ensures forall i: nat :: i >= Bound(entries) ==> LastAt(entries, i).None?
  {
    if entries != [] {
      var init := entries[..|entries| - 1];
      EntriesOfSpec(init);
      var ret := EntriesOf(init);
      var m := MatchEntry(entries[|entries| - 1].0);
      var r := EntriesOf(entries);
      forall i | 0 <= i < |r|
        ensures r[i] == LastAt(entries, i)
      {
        if m.None? || m.value.0 != i {
          assert LastAt(entries, i) == LastAt(init, i);
          if i >= |ret| {
            assert LastAt(init, i).None?;
          }
        }
      }
      forall i: nat | i >= Bound(entries)
        ensures LastAt(entries, i).None?
      {
        assert LastAt(entries, i) == LastAt(init, i);
      }
    }
  }

  /** A name that does not match the pattern is skipped. */
  lemma InvalidEntrySkipped(entries: Dict, k: Bytes, v: Bytes)
    requires MatchEntry(k).None?
    ensures EntriesOf(entries + [(k, v)]) == EntriesOf(entries)
  {
    assert (entries + [(k, v)])[..|entries|] == entries;
  }

  /** `_parse_test_case_entries`: the loop over the entries. */
  method ParseTestCaseEntries(entries: Dict) returns (ret: TestCase)
    ensures ret == EntriesOf(entries)
  {
    ret := [];
    for j := 0 to |entries|
      invariant ret == EntriesOf(entries[..j])
    {
      EntriesStep(entries, j);
      var (k, v) := entries[j];
      var result := MatchEntry(k);
      if result.None? {
        continue;
      }
      var localSeq := result.value.0;
      var padded := PadWithNone(ret, localSeq);
      var varName := result.value.1;
      PadPlace(ret, padded, localSeq, (varName, v));
      ret := padded[localSeq := Some((varName, v))];
    }
    assert entries[..|entries|] == entries;
  }

  /** The inner loop: append None until index `x` exists. */
  method PadWithNone(ret: TestCase, x: nat) returns (padded: TestCase)
    ensures |padded| == if x < |ret| then |ret| else x + 1
    ensures padded[..|ret|] == ret && forall i :: |ret| <= i < |padded| ==> padded[i].None?
  {
    padded := ret;
    while x >= |padded|
      invariant |ret| <= |padded| <= if x < |ret| then |ret| else x + 1
      invariant padded[..|ret|] == ret && forall i :: |ret| <= i < |padded| ==> padded[i].None?
      decreases x + 1 - |padded|
    {
      padded := padded + [None];
    }
  }

  /** The test case after one more entry. */
  lemma EntriesStep(entries: Dict, j: nat)
    requires j < |entries|
    ensures EntriesOf(entries[..j + 1]) ==
      match MatchEntry(entries[j].0)
      case None => EntriesOf(entries[..j])
      case Some((x, name)) => Place(EntriesOf(entries[..j]), x, (name, entries[j].1))
  {
    assert entries[..j + 1][..j] == entries[..j];
    assert entries[..j + 1][j] == entries[j];
  }

  /** Padding with None up to index `x` and then storing there is `Place`. */
  lemma PadPlace(before: TestCase, padded: TestCase, x: nat, e: (Bytes, Bytes))
    requires |before| <= |padded| == if x < |before| then |before| else x + 1
    requires padded[..|before|] == before && forall i :: |before| <= i < |padded| ==> padded[i].None?
    ensures padded[x := Some(e)] == Place(before, x, e)
  {
    var r := Place(before, x, e);
    forall i | 0 <= i < |r|
      ensures padded[x := Some(e)][i] == r[i]
    {
      if i < |before| {
        assert padded[i] == padded[..|before|][i];
      }
    }
  }

  /** `TraceTestCase(data)`: the records read into a dictionary, then ordered by local sequence number. */
  function TestCaseOf(data: Bytes): Result<TestCase>
  {
    var items :- ReadFrom([], data);
    Ok(EntriesOf(items))
  }
}
