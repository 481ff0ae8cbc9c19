// The part of Python's `struct` module the execution trace format relies on:
// format strings of the codes B, I and Q (unsigned integers of 1, 4 and 8
// bytes), s (a byte string of the given length) and c (one byte), each
// optionally preceded by a decimal count, laid out little-endian and without
// padding as the '<' prefix asks.
module PyStruct {
  import opened Wrappers
  import PyStr

  type Byte = b: int | 0 <= b < 256

  /** One field of a format: an unsigned integer of `width` bytes, or a byte string of `length` bytes. */
  datatype Code = UInt(width: nat) | Chars(length: nat)

  function Width(c: Code): nat
  {
    match c
    case UInt(w) => w
    case Chars(n) => n
  }

  /** `struct.calcsize` of a parsed format. */
  function Size(codes: seq<Code>): nat
  {
    if codes == [] then 0 else Width(codes[0]) + Size(codes[1..])
  }

  predicate IsDigit(c: char)
  {
    '0' <= c <= '9'
  }

  /** A string of the characters 0 to 9 is a base-10 digit string. */
  lemma DecimalDigits(s: string)
    requires forall i :: 0 <= i < |s| ==> IsDigit(s[i])
    ensures PyStr.AllDigits(s, 10)
  {
    forall i | 0 <= i < |s|
      ensures 0 <= PyStr.DigitValue(s[i]) < 10
    {
      assert IsDigit(s[i]);
    }
  }

  /** The number of decimal digits `s` starts with. */
  function LeadingDigits(s: string): (n: nat)
    ensures n <= |s|
    ensures forall i :: 0 <= i < n ==> IsDigit(s[i])
    ensures n < |s| ==> !IsDigit(s[n])
  {
    if s != [] && IsDigit(s[0]) then 1 + LeadingDigits(s[1..]) else 0
  }

  /** `count` copies of a code. */
  function Repeat(c: Code, count: nat): (r: seq<Code>)
    ensures |r| == count && forall i :: 0 <= i < count ==> r[i] == c
  {
    if count == 0 then [] else [c] + Repeat(c, count - 1)
  }

  /** The codes one format character stands for, given its count; any other character is a `struct.error`. */
  function CodesFor(c: char, count: nat): Result<seq<Code>>
  {
    if c == 's' then Ok([Chars(count)])
    else if c == 'c' then Ok(Repeat(Chars(1), count))
    else if c == 'B' then Ok(Repeat(UInt(1), count))
    else if c == 'I' then Ok(Repeat(UInt(4), count))
    else if c == 'Q' then Ok(Repeat(UInt(8), count))
    else Fail(StructError)
  }

  /** The codes of a format body: an optional count, a code character, and the rest. */
  function ParseCodes(s: string): Result<seq<Code>>
    decreases |s|
  {
    if s == [] then Ok([])
    else
      var n := LeadingDigits(s);
      if n == |s| then Fail(StructError)
      else
        assert PyStr.AllDigits(s[..n], 10);
        var count := if n == 0 then 1 else PyStr.DigitsValue(s[..n], 10);
        var here :- CodesFor(s[n], count);
        var rest :- ParseCodes(s[n + 1..]);
        Ok(here + rest)
  }

  /** A format string, with its '<' prefix. */
  function ParseFormat(fmt: string): Result<seq<Code>>
  {
    if |fmt| > 0 && fmt[0] == '<' then ParseCodes(fmt[1..]) else ParseCodes(fmt)
  }

  /** `struct.calcsize`. */
  function CalcSize(fmt: string): Result<nat>
  {
    var codes :- ParseFormat(fmt);
    Ok(Size(codes))
  }

  /** The codes a format character stands for without a count. */
  function Plain(c: char): Code
  {
    if c == 'B' then UInt(1) else if c == 'I' then UInt(4) else UInt(8)
  }

  predicate IsPlain(c: char)
  {
    c == 'B' || c == 'I' || c == 'Q'
  }

  /** A count of digits then a code character: its codes come first, then the codes of the rest. */
  lemma ParseCodesStep(count: string, c: char, rest: string)
    requires forall i :: 0 <= i < |count| ==> IsDigit(count[i])
    requires !IsDigit(c)
    ensures ParseCodes(count + [c] + rest) ==
      (DecimalDigits(count);
       var n := if count == [] then 1 else PyStr.DigitsValue(count, 10);
       match CodesFor(c, n)
       case Fail(e) => Fail(e)
       case Ok(here) => match ParseCodes(rest) case Fail(e) => Fail(e) case Ok(more) => Ok(here + more))
  {
    var s := count + [c] + rest;
    LeadingDigitsPrefix(count, [c] + rest);
    assert s == count + ([c] + rest);
    assert s[..|count|] == count && s[|count|] == c && s[|count| + 1..] == rest;
  }

  /** A counted string code: `n` bytes, then the codes of the rest. */
  lemma StringStep(count: string, n: nat, rest: string)
    requires |count| > 0 && forall i :: 0 <= i < |count| ==> IsDigit(count[i])
    requires PyStr.AllDigits(count, 10) && PyStr.DigitsValue(count, 10) == n
    ensures ParseCodes(count + ['s'] + rest) ==
      match ParseCodes(rest) case Fail(e) => Fail(e) case Ok(more) => Ok([Chars(n)] + more)
  {
    ParseCodesStep(count, 's', rest);
  }

  /** A format that opens with a counted string code. */
  lemma FormatStringHead(fmt: string, count: string, n: nat, rest: string)
    requires fmt == "<" + count + ['s'] + rest
    requires |count| > 0 && forall i :: 0 <= i < |count| ==> IsDigit(count[i])
    requires PyStr.AllDigits(count, 10) && PyStr.DigitsValue(count, 10) == n
    ensures ParseFormat(fmt) == match ParseCodes(rest) case Fail(e) => Fail(e) case Ok(more) => Ok([Chars(n)] + more)
  {
    assert fmt[1..] == count + ['s'] + rest;
    StringStep(count, n, rest);
  }

  lemma {:induction false} LeadingDigitsPrefix(digits: string, tail: string)
    requires forall i :: 0 <= i < |digits| ==> IsDigit(digits[i])
    requires |tail| > 0 && !IsDigit(tail[0])
    ensures LeadingDigits(digits + tail) == |digits|
  {
    if digits != [] {
      assert (digits + tail)[1..] == digits[1..] + tail;
      LeadingDigitsPrefix(digits[1..], tail);
    } else {
      assert digits + tail == tail;
    }
  }

  /** A format of '<' then only the codes B, I and Q parses to one unsigned integer per character. */
  lemma PlainLayout(fmt: string, body: string)
    requires fmt == "<" + body
    requires forall i :: 0 <= i < |body| ==> IsPlain(body[i])
    ensures ParseFormat(fmt) == Ok(Plains(body))
  {
    assert fmt[1..] == body;
    PlainCodes(body);
  }

  /** A run of the characters B, I and Q parses to one unsigned integer per character. */
  lemma PlainCodes(body: string)
    requires forall i :: 0 <= i < |body| ==> IsPlain(body[i])
    ensures ParseCodes(body) == Ok(Plains(body))
  {
    assert body + [] == body;
    ParseCodesPrefix(body, []);
    assert Plains(body) + [] == Plains(body);
  }

  /** The codes of a run of the characters B, I and Q. */
  function Plains(s: string): (r: seq<Code>)
    ensures |r| == |s| && forall i :: 0 <= i < |s| ==> r[i] == Plain(s[i])
  {
    seq(|s|, i requires 0 <= i < |s| => Plain(s[i]))
  }

  /** Count-free B, I and Q characters in front of a format contribute one code each. */
  lemma {:induction false} ParseCodesPrefix(plain: string, rest: string)
    requires forall i :: 0 <= i < |plain| ==> IsPlain(plain[i])
    ensures ParseCodes(plain + rest) ==
      match ParseCodes(rest) case Fail(e) => Fail(e) case Ok(m) => Ok(Plains(plain) + m)
  {
    if plain == [] {
      assert plain + rest == rest && Plains(plain) == [];
      if ParseCodes(rest).Ok? {
        assert Plains(plain) + ParseCodes(rest).value == ParseCodes(rest).value;
      }
    } else {
      ParseCodesPrefix(plain[1..], rest);
      ParseCodesOne(plain[0], plain[1..] + rest);
      assert [plain[0]] + (plain[1..] + rest) == plain + rest;
      if ParseCodes(rest).Ok? {
        PlainsCons(plain, ParseCodes(rest).value);
      }
    }
  }

  /** One count-free B, I or Q character in front of a format. */
  lemma ParseCodesOne(c: char, rest: string)
    requires IsPlain(c)
    ensures ParseCodes([c] + rest) ==
      match ParseCodes(rest) case Fail(e) => Fail(e) case Ok(m) => Ok([Plain(c)] + m)
  {
    ParseCodesStep([], c, rest);
    assert [] + [c] + rest == [c] + rest;
    assert Repeat(Plain(c), 1) == [Plain(c)];
    assert CodesFor(c, 1) == Ok([Plain(c)]);
  }

  lemma PlainsCons(plain: string, m: seq<Code>)
    requires |plain| > 0
    ensures [Plain(plain[0])] + (Plains(plain[1..]) + m) == Plains(plain) + m
  {
    assert Plains(plain) == [Plain(plain[0])] + Plains(plain[1..]);
  }

  /** A count written with '%d' before a code character; a negative count leaves a '-' that is no code. */
  lemma ParseCodesCount(n: int, c: char, rest: string)
    requires !IsDigit(c)
    ensures ParseCodes(PyStr.IntToString(n) + [c] + rest) ==
      if n < 0 then Fail(StructError)
      else match CodesFor(c, n)
        case Fail(e) => Fail(e)
        case Ok(here) => match ParseCodes(rest) case Fail(e) => Fail(e) case Ok(more) => Ok(here + more)
  {
    var s := PyStr.IntToString(n);
    if n < 0 {
      var t := s + [c] + rest;
      assert t[0] == '-';
      assert LeadingDigits(t) == 0;
      assert CodesFor('-', 1) == Fail(StructError);
    } else {
      assert forall i :: 0 <= i < |s| ==> IsDigit(s[i]) by {
        assert PyStr.AllDigits(s, 10);
      }
      ParseCodesStep(s, c, rest);
      PyStr.NatDigitsValue(n);
    }
  }

  /** '<', count-free B, I and Q codes, then one code character with a literal count. */
  lemma CountedTail(prefix: string, count: string, c: char)
    requires forall i :: 0 <= i < |prefix| ==> IsPlain(prefix[i])
    requires |count| > 0 && forall i :: 0 <= i < |count| ==> IsDigit(count[i])
    requires !IsDigit(c)
    ensures ParseFormat("<" + prefix + count + [c]) ==
      (DecimalDigits(count);
       match CodesFor(c, PyStr.DigitsValue(count, 10)) case Fail(e) => Fail(e) case Ok(here) => Ok(Plains(prefix) + here))
  {
    var rest := count + [c] + [];
    assert "<" + prefix + count + [c] == "<" + prefix + rest;
    FormatBody(prefix, rest, "<" + prefix + count + [c]);
    ParseCodesPrefix(prefix, rest);
    ParseCodesStep(count, c, []);
    DecimalDigits(count);
    var h := CodesFor(c, PyStr.DigitsValue(count, 10));
    if h.Ok? {
      assert h.value + [] == h.value;
    }
  }

  /** A format with its '<' prefix parses as its body. */
  lemma FormatBody(prefix: string, rest: string, fmt: string)
    requires fmt == "<" + prefix + rest
    ensures ParseFormat(fmt) == ParseCodes(prefix + rest)
  {
    assert fmt[0] == '<' && fmt[1..] == prefix + rest;
  }

  /** '<', count-free codes, then a code character with a count written by '%d'; a negative count is a `struct.error`. */
  lemma CountedFormat(prefix: string, n: int, c: char)
    requires forall i :: 0 <= i < |prefix| ==> IsPlain(prefix[i])
    requires !IsDigit(c)
    ensures ParseFormat("<" + prefix + PyStr.IntToString(n) + [c]) ==
      if n < 0 then Fail(StructError)
      else match CodesFor(c, n) case Fail(e) => Fail(e) case Ok(here) => Ok(Plains(prefix) + here)
  {
    var digits := PyStr.IntToString(n);
    if n < 0 {
      var fmt := "<" + prefix + digits + [c];
      var rest := digits + [c] + [];
      assert fmt[0] == '<' && fmt[1..] == prefix + rest;
      ParseCodesPrefix(prefix, rest);
      ParseCodesCount(n, c, []);
    } else {
      assert forall i :: 0 <= i < |digits| ==> IsDigit(digits[i]) by {
        assert PyStr.AllDigits(digits, 10);
      }
      CountedTail(prefix, digits, c);
      PyStr.NatDigitsValue(n);
    }
  }

  /** The sum of the sizes of two formats is the size of their concatenation. */
  lemma {:induction false} SizeAppend(a: seq<Code>, b: seq<Code>)
    ensures Size(a + b) == Size(a) + Size(b)
  {
    if a == [] {
      assert a + b == b;
    } else {
      assert (a + b)[0] == a[0] && (a + b)[1..] == a[1..] + b;
      SizeAppend(a[1..], b);
    }
  }

  lemma {:induction false} SizeRepeat(c: Code, count: nat)
    ensures Size(Repeat(c, count)) == count * Width(c)
  {
    if count > 0 {
      assert Repeat(c, count)[1..] == Repeat(c, count - 1);
      SizeRepeat(c, count - 1);
    }
  }

  // ---------------------------------------------------------------------
  // Packing

  /** A value handed to or returned by `pack`/`unpack`. */
  datatype Field = Int(n: int) | Bytes(b: seq<Byte>)

  function Pow256(w: nat): nat
  {
    if w == 0 then 1 else 256 * Pow256(w - 1)
  }

  /** The `w` little-endian bytes of `x`. */
  function LE(x: nat, w: nat): (r: seq<Byte>)
    requires x < Pow256(w)
    ensures |r| == w
  {
    if w == 0 then [] else [x % 256] + LE(x / 256, w - 1)
  }

  /** The number little-endian bytes stand for. */
  function FromLE(bs: seq<Byte>): (r: nat)
    ensures r < Pow256(|bs|)
  {
    if bs == [] then 0 else bs[0] + 256 * FromLE(bs[1..])
  }

  lemma {:induction false} FromLEOfLE(x: nat, w: nat)
    requires x < Pow256(w)
    ensures FromLE(LE(x, w)) == x
  {
    if w > 0 {
      FromLEOfLE(x / 256, w - 1);
      assert LE(x, w)[1..] == LE(x / 256, w - 1);
    }
  }

  lemma {:induction false} LEOfFromLE(bs: seq<Byte>)
    ensures LE(FromLE(bs), |bs|) == bs
  {
    if bs != [] {
      var rest := FromLE(bs[1..]);
      LEOfFromLE(bs[1..]);
      ByteSplit(bs[0], rest);
      assert LE(FromLE(bs), |bs|) == [bs[0]] + LE(rest, |bs| - 1);
    }
  }

  /** A byte below 256 times a rest: `% 256` gives back the byte, `/ 256` the rest. */
  lemma ByteSplit(b: Byte, rest: nat)
    ensures (b + 256 * rest) % 256 == b && (b + 256 * rest) / 256 == rest
  {
  }

  /** A byte string cut or NUL-padded to `n` bytes, as `pack` stores an 's' field. */
  function PadTo(b: seq<Byte>, n: nat): (r: seq<Byte>)
    ensures |r| == n
    ensures forall i :: 0 <= i < n ==> r[i] == if i < |b| then b[i] else 0
  {
    if |b| >= n then b[..n] else b + seq(n - |b|, _ => 0)
  }

  /** Whether `pack` accepts a value for a code: an integer in range, or a byte string. */
  predicate Fits(c: Code, f: Field)
  {
    match c
    case UInt(w) => f.Int? && 0 <= f.n < Pow256(w)
    case Chars(_) => f.Bytes?
  }

  predicate AllFit(codes: seq<Code>, fields: seq<Field>)
  {
    |codes| == |fields| && forall i :: 0 <= i < |codes| ==> Fits(codes[i], fields[i])
  }

  function PackOne(c: Code, f: Field): (r: seq<Byte>)
    requires Fits(c, f)
    ensures |r| == Width(c)
  {
    match c
    case UInt(w) => LE(f.n, w)
    case Chars(n) => PadTo(f.b, n)
  }

  /** `struct.pack`: one value per code, each in range, or a `struct.error`. */
  function Pack(codes: seq<Code>, fields: seq<Field>): (r: Result<seq<Byte>>)
    decreases |codes|
  {
    if |codes| != |fields| then Fail(StructError)
    else if codes == [] then Ok([])
    else if !Fits(codes[0], fields[0]) then Fail(StructError)
    else
      var rest :- Pack(codes[1..], fields[1..]);
      Ok(PackOne(codes[0], fields[0]) + rest)
  }

  /** The value `unpack` reads for a code. */
  function UnpackOne(c: Code, data: seq<Byte>): Field
    requires |data| == Width(c)
  {
    match c
    case UInt(_) => Int(FromLE(data))
    case Chars(_) => Bytes(data)
  }

  function UnpackAll(codes: seq<Code>, data: seq<Byte>): (r: seq<Field>)
    requires |data| == Size(codes)
    ensures |r| == |codes|
    ensures forall i {:trigger r[i]} :: 0 <= i < |codes| ==> Fits(codes[i], r[i]) && (codes[i].Chars? ==> |r[i].b| == codes[i].length)
  {
    if codes == [] then []
    else
      var w := Width(codes[0]);
      [UnpackOne(codes[0], data[..w])] + UnpackAll(codes[1..], data[w..])
  }

  /** The `k`-th value unpacked is the `k`-th code applied to its own slice of the data, `lo` to `hi`. */
  lemma {:induction false} UnpackAllAt(codes: seq<Code>, data: seq<Byte>, k: nat, lo: nat, hi: nat)
    requires |data| == Size(codes) && k < |codes|
    requires lo == Size(codes[..k]) && hi == lo + Width(codes[k])
    ensures hi <= |data|
    ensures UnpackAll(codes, data)[k] == UnpackOne(codes[k], data[lo..hi])
  {
    var w := Width(codes[0]);
    UnpackAllStep(codes, data, k);
    if k == 0 {
      assert codes[..0] == [];
      assert data[..w] == data[lo..hi];
    } else {
      SizeTakeStep(codes, k);
      assert codes[1..][k - 1] == codes[k];
      assert lo - w == Size(codes[1..][..k - 1]);
      assert hi - w == lo - w + Width(codes[1..][k - 1]);
      UnpackAllAt(codes[1..], data[w..], k - 1, lo - w, hi - w);
      SliceShift(data, w, lo - w, hi - lo);
    }
  }

  /** An integer code `k` whose predecessors take `lo` bytes unpacks from bytes `lo` to `lo + w`. */
  lemma UIntAt(codes: seq<Code>, data: seq<Byte>, k: nat, lo: nat, w: nat)
    requires |data| == Size(codes) && k < |codes| && codes[k] == UInt(w) && Size(codes[..k]) == lo
    ensures lo + w <= |data| && UnpackAll(codes, data)[k] == Int(FromLE(data[lo..lo + w]))
  {
    assert Width(codes[k]) == w;
    UnpackAllAt(codes, data, k, lo, lo + w);
  }

  /** The first value comes from the first code's bytes; each later one from the rest of the codes and bytes. */
  lemma UnpackAllStep(codes: seq<Code>, data: seq<Byte>, k: nat)
    requires |data| == Size(codes) && k < |codes|
    ensures Width(codes[0]) <= |data|
    ensures k == 0 ==> UnpackAll(codes, data)[0] == UnpackOne(codes[0], data[..Width(codes[0])])
    ensures k > 0 ==> UnpackAll(codes, data)[k] == UnpackAll(codes[1..], data[Width(codes[0])..])[k - 1]
  {
  }

  lemma SizeTakeStep(codes: seq<Code>, k: nat)
    requires 0 < k <= |codes|
    ensures Size(codes[..k]) == Width(codes[0]) + Size(codes[1..][..k - 1])
  {
    assert codes[..k][0] == codes[0];
    assert codes[..k][1..] == codes[1..][..k - 1];
  }

  lemma SliceShift(s: seq<Byte>, w: nat, o: nat, n: nat)
    requires w + o + n <= |s|
    ensures s[w..][o..o + n] == s[w + o..w + o + n]
  {
  }

  /** `struct.unpack`: the data must have exactly the size of the format. */
  function Unpack(codes: seq<Code>, data: seq<Byte>): Result<seq<Field>>
  {
    if |data| != Size(codes) then Fail(StructError) else Ok(UnpackAll(codes, data))
  }

  /** What `unpack` gives back for a value `pack` accepted: integers unchanged, strings cut or padded. */
  function Normal(c: Code, f: Field): Field
  {
    match c
    case UInt(_) => f
    case Chars(n) => if f.Bytes? then Bytes(PadTo(f.b, n)) else f
  }

  /** Each value as `unpack` would give it back after packing it under its code. */
  function NormalAll(codes: seq<Code>, fields: seq<Field>): (r: seq<Field>)
    requires |codes| == |fields|
    ensures |r| == |codes| && forall i :: 0 <= i < |codes| ==> r[i] == Normal(codes[i], fields[i])
  {
    seq(|codes|, i requires 0 <= i < |codes| => Normal(codes[i], fields[i]))
  }

  /**
   * `pack` succeeds exactly when there is one fitting value per code; then
   * it produces `calcsize` bytes, and unpacking them gives every integer
   * back and every string cut or NUL-padded to its length.
   */
  lemma {:induction false} PackUnpack(codes: seq<Code>, fields: seq<Field>)
    ensures Pack(codes, fields).Ok? <==> AllFit(codes, fields)
    ensures AllFit(codes, fields) ==>
      |Pack(codes, fields).value| == Size(codes) &&
      Unpack(codes, Pack(codes, fields).value) == Ok(NormalAll(codes, fields))
    decreases |codes|
  {
    if |codes| == |fields| && codes != [] {
      PackUnpack(codes[1..], fields[1..]);
      if AllFit(codes, fields) {
        assert AllFit(codes[1..], fields[1..]) by {
          forall i | 0 <= i < |codes| - 1
            ensures Fits(codes[1..][i], fields[1..][i])
          {
            assert codes[1..][i] == codes[i + 1] && fields[1..][i] == fields[i + 1];
          }
        }
        var head := PackOne(codes[0], fields[0]);
        var rest := Pack(codes[1..], fields[1..]).value;
        var data := head + rest;
        assert data[..Width(codes[0])] == head && data[Width(codes[0])..] == rest;
        if codes[0].UInt? {
          FromLEOfLE(fields[0].n, codes[0].width);
        }
        assert NormalAll(codes, fields) == [Normal(codes[0], fields[0])] + NormalAll(codes[1..], fields[1..]);
      } else if Fits(codes[0], fields[0]) {
        var k :| 0 <= k < |codes| && !Fits(codes[k], fields[k]);
        assert codes[1..][k - 1] == codes[k] && fields[1..][k - 1] == fields[k];
      }
    }
  }

  /** What packing the first code contributes, and that the rest of the bytes pack the rest of the values. */
  lemma PackRest(codes: seq<Code>, fields: seq<Field>, data: seq<Byte>)
    requires |codes| > 0 && Pack(codes, fields) == Ok(data)
    ensures |fields| == |codes| && Fits(codes[0], fields[0]) && Width(codes[0]) <= |data|
    ensures Pack(codes[1..], fields[1..]) == Ok(data[Width(codes[0])..])
  {
    var rest := Pack(codes[1..], fields[1..]).value;
    assert data == PackOne(codes[0], fields[0]) + rest;
    assert data[Width(codes[0])..] == rest;
  }

  /** Packing a fitting first value in front of packed values. */
  lemma PackHead(codes: seq<Code>, fields: seq<Field>, rest: seq<Byte>)
    requires |codes| > 0 && |codes| == |fields| && Fits(codes[0], fields[0])
    requires Pack(codes[1..], fields[1..]) == Ok(rest)
    ensures Pack(codes, fields) == Ok(PackOne(codes[0], fields[0]) + rest)
  {
  }

  /** Packing what `unpack` read gives the same bytes back. */
  lemma {:induction false} UnpackPack(codes: seq<Code>, data: seq<Byte>)
    requires |data| == Size(codes)
    ensures Pack(codes, UnpackAll(codes, data)) == Ok(data)
    decreases |codes|
  {
    if codes != [] {
      var w := Width(codes[0]);
      UnpackPack(codes[1..], data[w..]);
      var fields := UnpackAll(codes, data);
      assert fields[1..] == UnpackAll(codes[1..], data[w..]);
      if codes[0].UInt? {
        LEOfFromLE(data[..w]);
      }
      assert Fits(codes[0], fields[0]);
      assert PackOne(codes[0], fields[0]) == data[..w];
      assert data == data[..w] + data[w..];
    }
  }

  /** Integer values, as they are handed to `pack`. */
  function Ints(values: seq<nat>): (r: seq<Field>)
    ensures |r| == |values| && forall i :: 0 <= i < |values| ==> r[i] == Int(values[i])
  {
    seq(|values|, i requires 0 <= i < |values| => Int(values[i]))
  }

  /** One integer per code, each below 256 to the power of the code's width. */
  predicate InRange(codes: seq<Code>, values: seq<nat>)
  {
    |values| == |codes| && forall i :: 0 <= i < |codes| ==> values[i] < Pow256(Width(codes[i]))
  }

  /** Under codes of one width, being in range is every value being below that width's bound. */
  lemma InRangeUniform(codes: seq<Code>, values: seq<nat>, w: nat)
    requires forall i :: 0 <= i < |codes| ==> codes[i] == UInt(w)
    ensures InRange(codes, values) <==> |values| == |codes| && forall i :: 0 <= i < |values| ==> values[i] < Pow256(w)
  {
  }

  /** Integers pack exactly when each fits its code, into `calcsize` bytes that unpack to the same integers. */
  lemma PackInts(codes: seq<Code>, values: seq<nat>)
    requires forall i :: 0 <= i < |codes| ==> codes[i].UInt?
    ensures Pack(codes, Ints(values)).Ok? <==> InRange(codes, values)
    ensures InRange(codes, values) ==>
      |Pack(codes, Ints(values)).value| == Size(codes) &&
      Unpack(codes, Pack(codes, Ints(values)).value) == Ok(Ints(values))
  {
    var fields := Ints(values);
    PackUnpack(codes, fields);
    assert AllFit(codes, fields) <==> InRange(codes, values);
    if InRange(codes, values) {
      assert NormalAll(codes, fields) == fields;
    }
  }
}
