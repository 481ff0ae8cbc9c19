// commands/recipe.py: the helpers that lay out PoV recipe files. A recipe is
// a text file of `:key=value` header lines and byte constraints; markers in
// an assembled instruction (runs of the byte 0xbc) are replaced by the names
// of the recipe's variables; each recipe is written to
// `recipes/type<t>_<arch>_<platform>_<name>[_<register>].rcp` of the project.
module Recipe {
  import opened Wrappers
  import opened PyStr
  import opened PyStruct
  import opened PosixPath

  // ---------------------------------------------------------------------
  // Architectures

  /** REGISTERS: the general-purpose registers of an architecture, in encoding order. */
  function Registers(arch: string): Option<seq<string>>
  {
    if arch == "i386" then Some(["eax", "ecx", "edx", "ebx", "esp", "ebp", "esi", "edi"])
    else if arch == "amd64" then Some(["rax", "rcx", "rdx", "rbx", "rsp", "rbp", "rsi", "rdi"])
    else None
  }

  /** BITS: the word size of an architecture. */
  function Bits(arch: string): Option<nat>
  {
    if arch == "i386" then Some(32) else if arch == "amd64" then Some(64) else None
  }

  // ---------------------------------------------------------------------
  // expand_byte

  function HexChar(d: nat): (c: char)
    requires d < 16
    ensures DigitValue(c) == d
  {
    if d < 10 then ('0' as int + d) as char else ('a' as int + d - 10) as char
  }

  predicate IsHexChar(c: char)
  {
    '0' <= c <= '9' || 'a' <= c <= 'f'
  }

  /** The lower-case hex digits of `n` without leading zeros, as `'%x' % n` prints them. */
  function HexDigits(n: nat): (r: string)
    ensures |r| > 0 && AllDigits(r, 16) && DigitsValue(r, 16) == n
    ensures AllHex(r)
    ensures n < 16 ==> |r| == 1
    ensures 16 <= n < 256 ==> |r| == 2
    decreases n
  {
    if n < 16 then [HexChar(n)]
    else
      var r := HexDigits(n / 16) + [HexChar(n % 16)];
      assert r[..|r| - 1] == HexDigits(n / 16);
      r
  }

  /** `'%x' % b`: a minus sign before the digits of a negative number. */
  function FormatHex(b: int): (r: string)
  {
    if b < 0 then "-" + HexDigits(-b) else HexDigits(b)
  }

  /** `s * n`. */
  function RepeatStr(s: string, n: nat): (r: string)
    ensures |r| == n * |s|
  {
    if n == 0 then [] else RepeatStr(s, n - 1) + s
  }

  /** `expand_byte(b, size)`: `int(('%x' % b) * size, 16)`; `ValueError` when that is no number. */
  function ExpandByte(b: int, size: nat): Result<int>
  {
    match ParseInt(RepeatStr(FormatHex(b), size), 16)
    case None => Fail(ValueError)
    case Some(v) => Ok(v)
  }

  /** `size` copies of one byte. */
  function ByteRun(b: Byte, size: nat): (r: seq<Byte>)
    ensures |r| == size
  {
    seq(size, _ => b)
  }

  predicate AllHex(d: string)
  {
    forall i :: 0 <= i < |d| ==> IsHexChar(d[i])
  }

  /** `int(s, 16)` of an unsigned string with nothing to strip: the value of its digits after any "0x". */
  lemma ParseUnsigned(s: string, digits: string)
    requires Strip(s) == s && |s| > 0 && s[0] != '-' && s[0] != '+'
    requires digits == if |s| >= 2 && s[0] == '0' && (s[1] == 'x' || s[1] == 'X') then s[2..] else s
    requires |digits| > 0 && AllDigits(digits, 16)
    ensures ParseInt(s, 16) == Some(DigitsValue(digits, 16))
  {
  }

  lemma HexTrimmed(d: string)
    requires |d| > 0 && AllHex(d)
    ensures Strip(d) == d && AllDigits(d, 16)
  {
    assert IsHexChar(d[0]) && IsHexChar(d[|d| - 1]);
    StripTrimmed(d);
  }

  /** A non-empty string of lower-case hex digits is read by `int(_, 16)` as its digits' value. */
  lemma ParseHex(d: string)
    requires |d| > 0 && AllHex(d)
    ensures AllDigits(d, 16) && ParseInt(d, 16) == Some(DigitsValue(d, 16))
  {
    HexTrimmed(d);
    assert IsHexChar(d[0]);
    assert |d| >= 2 ==> IsHexChar(d[1]);
    ParseUnsigned(d, d);
  }

  lemma {:induction false} RepeatHex(h: string, n: nat)
    requires AllHex(h)
    ensures AllHex(RepeatStr(h, n))
  {
    if n > 0 {
      RepeatHex(h, n - 1);
    }
  }

  /** Two more hex digits multiply the value by 256 and add theirs. */
  lemma AppendTwoDigits(r: string, h: string)
    requires AllDigits(r, 16) && AllDigits(h, 16) && |h| == 2
    ensures AllDigits(r + h, 16)
    ensures DigitsValue(r + h, 16) == DigitsValue(r, 16) * 256 + DigitsValue(h, 16)
  {
    var s := r + h;
    var r0 := r + [h[0]];
    assert AllDigits(s, 16);
    assert s[..|s| - 1] == r0;
    assert r0[..|r|] == r;
    assert DigitsValue(r0, 16) == DigitsValue(r, 16) * 16 + DigitValue(h[0]);
    assert DigitsValue(s, 16) == DigitsValue(r0, 16) * 16 + DigitValue(h[1]);
    assert h[..1] == [h[0]] && h[..1][..0] == [];
    assert DigitsValue([h[0]], 16) == DigitValue(h[0]);
    assert DigitsValue(h, 16) == DigitsValue(h[..1], 16) * 16 + DigitValue(h[1]);
  }

  lemma {:induction false} RepeatRun(b: nat, n: nat)
    requires 16 <= b < 256
    ensures AllDigits(RepeatStr(HexDigits(b), n), 16)
    ensures DigitsValue(RepeatStr(HexDigits(b), n), 16) == FromLE(ByteRun(b, n))
  {
    if n > 0 {
      RepeatRun(b, n - 1);
      AppendTwoDigits(RepeatStr(HexDigits(b), n - 1), HexDigits(b));
      assert ByteRun(b, n)[1..] == ByteRun(b, n - 1);
    }
  }

  /**
   * For a byte of two hex digits, `expand_byte(b, size)` is the number whose
   * `size` little-endian bytes all equal `b`; with no copies there is no
   * number to read.
   */
  lemma ExpandByteRun(b: nat, size: nat)
    requires 16 <= b < 256
    ensures size > 0 ==> ExpandByte(b, size) == Ok(FromLE(ByteRun(b, size)))
    ensures size == 0 ==> ExpandByte(b, size) == Fail(ValueError)
  {
    var d := RepeatStr(HexDigits(b), size);
    if size > 0 {
      RepeatHex(HexDigits(b), size);
      ParseHex(d);
      RepeatRun(b, size);
    } else {
      assert d == [];
    }
  }

  /** The masks `type1` builds: four and eight bytes of 0xff. */
  lemma ExpandByteMasks()
    ensures ExpandByte(0xff, 4) == Ok(0xffff_ffff)
    ensures ExpandByte(0xff, 8) == Ok(0xffff_ffff_ffff_ffff)
  {
    ExpandByteRun(0xff, 4);
    ExpandByteRun(0xff, 8);
    AllOnes(4);
    AllOnes(8);
    assert Pow256(4) == 0x1_0000_0000;
    assert Pow256(8) == 0x1_0000_0000 * Pow256(4);
  }

  /** A run of 0xff bytes is one less than the next power of 256. */
  lemma {:induction false} AllOnes(n: nat)
    ensures FromLE(ByteRun(0xff, n)) == Pow256(n) - 1
  {
    if n > 0 {
      AllOnes(n - 1);
      assert ByteRun(0xff, n)[1..] == ByteRun(0xff, n - 1);
    }
  }

  // ---------------------------------------------------------------------
  // write_stripped_string

  /** The file a recipe is written to: the text written so far. */
  class RecipeFile {
    var text: string

    constructor ()
      ensures text == []
    {
      text := [];
    }

    /** `fp.write(s)`. */
    method Write(s: string)
      modifies this
      ensures text == old(text) + s
    {
      text := text + s;
    }
  }

  /** The lines `write_stripped_string` writes for some input lines: the non-blank ones, stripped and prefixed. */
  function KeptLines(lines: seq<string>, prefix: string): (r: seq<string>)
    decreases |lines|
  {
    if lines == [] then []
    else
      var rest := KeptLines(lines[..|lines| - 1], prefix);
      var stripped := Strip(lines[|lines| - 1]);
      if stripped != [] then rest + [prefix + stripped] else rest
  }

  /** Each line followed by a newline. */
  function Unlines(lines: seq<string>): string
    decreases |lines|
  {
    if lines == [] then [] else Unlines(lines[..|lines| - 1]) + lines[|lines| - 1] + "\n"
  }

  /** One more input line adds its written form, if any, to the text. */
  lemma KeptStep(lines: seq<string>, i: nat, prefix: string)
    requires i < |lines|
    ensures var stripped := Strip(lines[i]);
      Unlines(KeptLines(lines[..i + 1], prefix))
      == Unlines(KeptLines(lines[..i], prefix)) + if stripped != [] then prefix + stripped + "\n" else []
  {
    assert lines[..i + 1][..i] == lines[..i];
    var rest := KeptLines(lines[..i], prefix);
    var stripped := Strip(lines[i]);
    if stripped != [] {
      var r := rest + [prefix + stripped];
      assert r[..|r| - 1] == rest;
    }
  }

  /** `write_stripped_string(fp, string, line_prefix)`. */
  method WriteStrippedString(fp: RecipeFile, s: string, prefix: string)
    modifies fp
    ensures fp.text == old(fp.text) + Unlines(KeptLines(SplitLines(s), prefix))
  {
    var lines := SplitLines(s);
    ghost var start := fp.text;
    for i := 0 to |lines|
      invariant fp.text == start + Unlines(KeptLines(lines[..i], prefix))
    {
      var stripped := Strip(lines[i]);
      ghost var written := Unlines(KeptLines(lines[..i], prefix));
      KeptStep(lines, i, prefix);
      if stripped != [] {
        fp.Write(prefix + stripped + "\n");
        assert fp.text == start + (written + (prefix + stripped + "\n"));
      } else {
        assert fp.text == start + (written + []);
      }
    }
    assert lines[..|lines|] == lines;
  }

  /** `strip` leaves a string with no whitespace at either end and no line break inside. */
  lemma StripLine(l: string)
    requires forall j :: 0 <= j < |l| ==> !IsLineBreak(l[j])
    ensures Trimmed(Strip(l))
    ensures forall j :: 0 <= j < |Strip(l)| ==> !IsLineBreak(Strip(l)[j])
  {
    StripSpec(l);
  }

  /**
   * Every written line is the prefix followed by the stripped text of an
   * input line that is not blank; nothing else is written, so there are at
   * most as many written lines as input lines, and as many when no input
   * line is blank.
   */
  lemma {:induction false} KeptLinesSpec(lines: seq<string>, prefix: string)
    ensures var r := KeptLines(lines, prefix);
      forall k :: 0 <= k < |r| ==>
        exists i :: 0 <= i < |lines| && Strip(lines[i]) != [] && r[k] == prefix + Strip(lines[i])
    ensures |KeptLines(lines, prefix)| <= |lines|
    ensures (forall i :: 0 <= i < |lines| ==> Strip(lines[i]) != []) ==> |KeptLines(lines, prefix)| == |lines|
    decreases |lines|
  {
    if lines != [] {
      var init := lines[..|lines| - 1];
      KeptLinesSpec(init, prefix);
      var r := KeptLines(lines, prefix);
      var rest := KeptLines(init, prefix);
      forall k | 0 <= k < |r|
        ensures exists i :: 0 <= i < |lines| && Strip(lines[i]) != [] && r[k] == prefix + Strip(lines[i])
      {
        if k < |rest| {
          var i :| 0 <= i < |init| && Strip(init[i]) != [] && rest[k] == prefix + Strip(init[i]);
          assert lines[i] == init[i];
        } else {
          assert r[k] == prefix + Strip(lines[|lines| - 1]);
        }
      }
    }
  }

  /** Lines that are already non-blank and stripped are written as they are. */
  lemma {:induction false} KeptLinesTrimmed(lines: seq<string>)
    requires forall i :: 0 <= i < |lines| ==> lines[i] != [] && Trimmed(lines[i])
    ensures KeptLines(lines, "") == lines
    decreases |lines|
  {
    if lines != [] {
      KeptLinesTrimmed(lines[..|lines| - 1]);
      StripTrimmed(lines[|lines| - 1]);
      assert [] + lines[|lines| - 1] == lines[|lines| - 1];
    }
  }

  lemma {:induction false} UnlinesCons(lines: seq<string>)
    requires lines != []
    ensures Unlines(lines) == lines[0] + "\n" + Unlines(lines[1..])
    decreases |lines|
  {
    if |lines| > 1 {
      UnlinesCons(lines[..|lines| - 1]);
      assert lines[..|lines| - 1][1..] == lines[1..][..|lines| - 2];
    } else {
      assert lines[..0] == [];
    }
  }

  lemma SplitLinesCons(l: string, rest: string)
    requires forall j :: 0 <= j < |l| ==> !IsLineBreak(l[j])
    ensures SplitLines(l + "\n" + rest) == [l] + SplitLines(rest)
  {
    var s := l + "\n" + rest;
    assert LineEnd(s, 0) == |l| by {
      assert forall j :: 0 <= j < |l| ==> s[j] == l[j];
      assert s[|l|] == '\n';
    }
    assert s[..|l|] == l;
    assert s[|l| + 1..] == rest;
  }

  /** Reading back what was written line by line gives the written lines. */
  lemma {:induction false} SplitUnlines(lines: seq<string>)
    requires forall i :: 0 <= i < |lines| ==> forall j :: 0 <= j < |lines[i]| ==> !IsLineBreak(lines[i][j])
    ensures SplitLines(Unlines(lines)) == lines
    decreases |lines|
  {
    if lines != [] {
      UnlinesCons(lines);
      SplitUnlines(lines[1..]);
      SplitLinesCons(lines[0], Unlines(lines[1..]));
    }
  }

  /** The lines written, when the prefix and every input line hold no line break. */
  lemma WrittenLines(lines: seq<string>, prefix: string)
    requires forall j :: 0 <= j < |prefix| ==> !IsLineBreak(prefix[j])
    requires forall i :: 0 <= i < |lines| ==> forall j :: 0 <= j < |lines[i]| ==> !IsLineBreak(lines[i][j])
    ensures forall k :: 0 <= k < |KeptLines(lines, prefix)| ==>
      forall j :: 0 <= j < |KeptLines(lines, prefix)[k]| ==> !IsLineBreak(KeptLines(lines, prefix)[k][j])
    ensures prefix == [] ==> forall k :: 0 <= k < |KeptLines(lines, prefix)| ==>
      KeptLines(lines, prefix)[k] != [] && Trimmed(KeptLines(lines, prefix)[k])
  {
    KeptLinesSpec(lines, prefix);
    var r := KeptLines(lines, prefix);
    forall k | 0 <= k < |r|
      ensures forall j :: 0 <= j < |r[k]| ==> !IsLineBreak(r[k][j])
      ensures prefix == [] ==> r[k] != [] && Trimmed(r[k])
    {
      var i :| 0 <= i < |lines| && Strip(lines[i]) != [] && r[k] == prefix + Strip(lines[i]);
      StripLine(lines[i]);
      assert prefix == [] ==> r[k] == Strip(lines[i]);
    }
  }

  /**
   * With no prefix, `write_stripped_string` is idempotent: writing its own
   * output again writes the same text.
   */
  lemma WriteStrippedIdempotent(s: string)
    ensures var once := Unlines(KeptLines(SplitLines(s), ""));
      Unlines(KeptLines(SplitLines(once), "")) == once
  {
    var lines := SplitLines(s);
    var kept := KeptLines(lines, "");
    assert forall i :: 0 <= i < |lines| ==> lines[i] in lines;
    WrittenLines(lines, "");
    SplitUnlines(kept);
    KeptLinesTrimmed(kept);
  }

  // ---------------------------------------------------------------------
  // resolve_marker

  /** SIZE_TO_STRUCT[size]: the pack format for a marker of 1, 2, 4 or 8 bytes. */
  function MarkerCode(size: nat): Result<Code>
  {
    if size >= 9 then Fail(IndexError)
    else if size == 1 || size == 2 || size == 4 || size == 8 then Ok(UInt(size))
    else Fail(TypeError)
  }

  /** `struct.pack(SIZE_TO_STRUCT[size], marker)`. */
  function PackMarker(marker: int, size: nat): Result<seq<Byte>>
  {
    var code :- MarkerCode(size);
    Pack([code], [Int(marker)])
  }

  /** A Python 2 byte string: every character is one byte. */
  predicate IsByteText(s: string)
  {
    forall i :: 0 <= i < |s| ==> s[i] as int < 256
  }

  function ByteText(bs: seq<Byte>): (r: string)
    ensures |r| == |bs| && IsByteText(r)
  {
    seq(|bs|, i requires 0 <= i < |bs| => bs[i] as char)
  }

  /** `binascii.hexlify(s)`: two lower-case hex digits per byte. */
  function Hexlify(s: string): (r: string)
    requires IsByteText(s)
    ensures |r| == 2 * |s|
    decreases |s|
  {
    if s == [] then []
    else
      var b := s[0] as int;
      [HexChar(b / 16), HexChar(b % 16)] + Hexlify(s[1..])
  }

  /** The name written over byte `i` of a marker. */
  function Label(name: string, size: nat, i: nat): string
  {
    if size == 1 then name else name + "[" + IntToString(i) + "]"
  }

  /** The list after `resolve_marker`, and whether it raised. */
  datatype Resolved = Resolved(outcome: Outcome, items: seq<string>)

  /**
   * `resolve_marker(asmd, marker, marker_size, var_name)`: the marker is
   * packed and searched for in the joined bytes; when it is found every item
   * becomes `0x` and its hex digits, and the items from the marker's index on
   * become the variable's name (one byte) or its indexed bytes. An index
   * past the end raises `IndexError`, after the items before it were
   * written.
   */
  function Resolve(asmd: seq<string>, marker: int, size: nat, name: string): (r: Resolved)
    requires forall i :: 0 <= i < |asmd| ==> IsByteText(asmd[i])
    ensures |r.items| == |asmd|
  {
    match PackMarker(marker, size)
    case Fail(e) => Resolved(Raise(e), asmd)
    case Ok(pk) =>
      var k := Find(Join("", asmd), ByteText(pk));
      if k == -1 then Resolved(Raise(PlainException), asmd)
      else Resolved(if k + size <= |asmd| then Pass else Raise(IndexError), Labelled(Hexed(asmd), k, size, name))
  }

  /** Every item as `0x` and its hex digits. */
  function Hexed(asmd: seq<string>): (r: seq<string>)
    requires forall i :: 0 <= i < |asmd| ==> IsByteText(asmd[i])
    ensures |r| == |asmd|
    ensures forall i :: 0 <= i < |asmd| ==> r[i] == "0x" + Hexlify(asmd[i])
  {
    seq(|asmd|, i requires 0 <= i < |asmd| => "0x" + Hexlify(asmd[i]))
  }

  /** The items from `k` on that hold the marker's bytes, named after the variable. */
  function Labelled(items: seq<string>, k: nat, size: nat, name: string): (r: seq<string>)
    ensures |r| == |items|
    ensures forall i :: 0 <= i < |items| ==>
      r[i] == if k <= i < k + size then Label(name, size, i - k) else items[i]
  {
    seq(|items|, i requires 0 <= i < |items| => if k <= i < k + size then Label(name, size, i - k) else items[i])
  }

  /** `resolve_marker` on the list it rewrites in place. */
  method ResolveMarker(asmd: array<string>, marker: int, size: nat, name: string) returns (outcome: Outcome)
    requires forall i :: 0 <= i < asmd.Length ==> IsByteText(asmd[i])
    modifies asmd
    ensures outcome == Resolve(old(asmd[..]), marker, size, name).outcome
    ensures asmd[..] == Resolve(old(asmd[..]), marker, size, name).items
  {
    var packed := PackMarker(marker, size);
    if packed.Fail? {
      return Raise(packed.error);
    }
    var k := Find(Join("", asmd[..]), ByteText(packed.value));
    if k == -1 {
      return Raise(PlainException);
    }
    HexlifyItems(asmd);
    outcome := NameMarker(asmd, k, size, name);
  }

  /** The first loop of `resolve_marker`: every item replaced by its hex form. */
  method HexlifyItems(asmd: array<string>)
    requires forall i :: 0 <= i < asmd.Length ==> IsByteText(asmd[i])
    modifies asmd
    ensures asmd[..] == Hexed(old(asmd[..]))
  {
    ghost var before := asmd[..];
    for i := 0 to asmd.Length
      invariant forall j :: 0 <= j < i ==> asmd[j] == "0x" + Hexlify(before[j])
      invariant forall j :: i <= j < asmd.Length ==> asmd[j] == before[j]
    {
      asmd[i] := "0x" + Hexlify(asmd[i]);
    }
    assert asmd[..] == Hexed(before);
  }

  /** The marker's items named after the variable; `IndexError` once an index is past the end. */
  method NameMarker(asmd: array<string>, k: nat, size: nat, name: string) returns (outcome: Outcome)
    requires size > 0
    modifies asmd
    ensures outcome == if k + size <= asmd.Length then Pass else Raise(IndexError)
    ensures asmd[..] == Labelled(old(asmd[..]), k, size, name)
  {
    if size == 1 {
      ghost var before := asmd[..];
      if k >= asmd.Length {
        assert asmd[..] == Labelled(before, k, size, name);
        return Raise(IndexError);
      }
      asmd[k] := name;
      assert asmd[..] == Labelled(before, k, size, name);
      outcome := Pass;
    } else {
      outcome := NameBytes(asmd, k, size, name);
    }
  }

  /** The loop naming each byte of a marker of several bytes. */
  method NameBytes(asmd: array<string>, k: nat, size: nat, name: string) returns (outcome: Outcome)
    requires size > 1
    modifies asmd
    ensures outcome == if k + size <= asmd.Length then Pass else Raise(IndexError)
    ensures asmd[..] == Labelled(old(asmd[..]), k, size, name)
  {
    ghost var before := asmd[..];
    for i := 0 to size
      invariant i > 0 ==> k + i <= asmd.Length
      invariant forall j :: 0 <= j < asmd.Length ==>
        asmd[j] == if k <= j < k + i then Label(name, size, j - k) else before[j]
    {
      if k + i >= asmd.Length {
        assert asmd[..] == Labelled(before, k, size, name);
        return Raise(IndexError);
      }
      asmd[k + i] := Label(name, size, i);
    }
    assert asmd[..] == Labelled(before, k, size, name);
    outcome := Pass;
  }

  // ---------------------------------------------------------------------
  // What resolve_marker promises

  /** A marker of 1, 2, 4 or 8 bytes packs to its little-endian bytes when it fits, and fails otherwise. */
  lemma PackMarkerSpec(marker: int, size: nat)
    requires size == 1 || size == 2 || size == 4 || size == 8
    ensures 0 <= marker < Pow256(size) ==> PackMarker(marker, size) == Ok(LE(marker, size))
    ensures !(0 <= marker < Pow256(size)) ==> PackMarker(marker, size) == Fail(StructError)
  {
    assert MarkerCode(size) == Ok(UInt(size));
    var codes, fields := [UInt(size)], [Int(marker)];
    assert Pack(codes[1..], fields[1..]) == Ok([]);
    if 0 <= marker < Pow256(size) {
      assert PackOne(codes[0], fields[0]) == LE(marker, size);
      assert LE(marker, size) + [] == LE(marker, size);
    }
  }

  /**
   * The error cases: a size with no pack format, a marker the format cannot
   * hold, and a marker whose bytes do not occur each raise and leave the
   * list as it was.
   */
  lemma ResolveErrors(asmd: seq<string>, marker: int, size: nat, name: string)
    requires forall i :: 0 <= i < |asmd| ==> IsByteText(asmd[i])
    ensures size >= 9 ==> Resolve(asmd, marker, size, name) == Resolved(Raise(IndexError), asmd)
    ensures size < 9 && size != 1 && size != 2 && size != 4 && size != 8 ==>
      Resolve(asmd, marker, size, name) == Resolved(Raise(TypeError), asmd)
    ensures (size == 1 || size == 2 || size == 4 || size == 8) && !(0 <= marker < Pow256(size)) ==>
      Resolve(asmd, marker, size, name) == Resolved(Raise(StructError), asmd)
    ensures (size == 1 || size == 2 || size == 4 || size == 8) && 0 <= marker < Pow256(size) ==>
      (Resolve(asmd, marker, size, name).outcome == Raise(PlainException)
       <==> !Contains(Join("", asmd), ByteText(LE(marker, size))))
    ensures Resolve(asmd, marker, size, name).outcome == Raise(PlainException) ==>
      Resolve(asmd, marker, size, name).items == asmd
  {
    if size == 1 || size == 2 || size == 4 || size == 8 {
      PackMarkerSpec(marker, size);
    }
  }

  /** The joined text of one-character items is the items' characters, in order. */
  lemma {:induction false} JoinSingles(asmd: seq<string>)
    requires forall i :: 0 <= i < |asmd| ==> |asmd[i]| == 1
    ensures |Join("", asmd)| == |asmd|
    ensures forall i :: 0 <= i < |asmd| ==> Join("", asmd)[i] == asmd[i][0]
    decreases |asmd|
  {
    if |asmd| > 1 {
      JoinSingles(asmd[1..]);
      assert Join("", asmd) == asmd[0] + "" + Join("", asmd[1..]);
    }
  }

  /**
   * On the list `assemble` hands over, one byte per item, a marker whose
   * bytes occur is resolved without error: its first occurrence starts at
   * `k`, the `size` items from `k` on hold exactly its bytes and become the
   * variable's name or indexed names, and every other item becomes its hex
   * form.
   */
  lemma ResolveAssembled(asmd: seq<string>, marker: int, size: nat, name: string)
    requires forall i :: 0 <= i < |asmd| ==> |asmd[i]| == 1 && IsByteText(asmd[i])
    requires size == 1 || size == 2 || size == 4 || size == 8
    requires 0 <= marker < Pow256(size)
    requires Contains(Join("", asmd), ByteText(LE(marker, size)))
    ensures var k := Find(Join("", asmd), ByteText(LE(marker, size)));
      0 <= k && k + size <= |asmd|
      && (forall j :: 0 <= j < size ==> asmd[k + j] == [LE(marker, size)[j] as char])
      && Resolve(asmd, marker, size, name) == Resolved(Pass, Labelled(Hexed(asmd), k, size, name))
  {
    var pk := LE(marker, size);
    var text := Join("", asmd);
    var k := Find(text, ByteText(pk));
    JoinSingles(asmd);
    PackMarkerSpec(marker, size);
    assert text[k..k + size] == ByteText(pk);
    forall j | 0 <= j < size
      ensures asmd[k + j] == [pk[j] as char]
    {
      assert text[k + j] == ByteText(pk)[j];
    }
  }

  /** The two hex digits of a byte, read back. */
  lemma HexPair(b: nat)
    requires b < 256
    ensures var h := [HexChar(b / 16), HexChar(b % 16)];
      AllHex(h) && AllDigits(h, 16) && DigitsValue(h, 16) == b
  {
    var h := [HexChar(b / 16), HexChar(b % 16)];
    assert h[..1] == [h[0]] && h[..1][..0] == [];
    assert DigitsValue([h[0]], 16) == b / 16;
    assert DigitsValue(h, 16) == DigitsValue(h[..1], 16) * 16 + b % 16;
  }

  /** An item `resolve_marker` put in hex reads back, with `int(_, 16)`, as the byte it replaced. */
  lemma HexItemRoundTrip(c: string)
    requires |c| == 1 && IsByteText(c)
    ensures ParseInt("0x" + Hexlify(c), 16) == Some(c[0] as int)
  {
    var b := c[0] as int;
    var h := Hexlify(c);
    assert h == [HexChar(b / 16), HexChar(b % 16)];
    HexPair(b);
    var s := "0x" + h;
    assert !IsSpace(s[0]) && !IsSpace(s[|s| - 1]);
    StripTrimmed(s);
    assert s[2..] == h;
    ParseUnsigned(s, h);
  }

  /**
   * The marker `assemble` plants, `expand_byte(0xbc, size)`, packs to `size`
   * bytes of 0xbc: the bytes `resolve_marker` then looks for.
   */
  lemma PlantedMarker(size: nat)
    requires size == 1 || size == 2 || size == 4 || size == 8
    ensures ExpandByte(0xbc, size).Ok?
    ensures PackMarker(ExpandByte(0xbc, size).value, size) == Ok(ByteRun(0xbc, size))
  {
    ExpandByteRun(0xbc, size);
    var m := FromLE(ByteRun(0xbc, size));
    LEOfFromLE(ByteRun(0xbc, size));
    PackMarkerSpec(m, size);
  }

  // ---------------------------------------------------------------------
  // get_recipe_path and the recipes `handle` writes

  /** A recipe's coordinates, as `handle` passes them to `get_recipe_path`. */
  datatype RecipeId = RecipeId(recipeType: int, arch: string, platform: string, name: string, gpReg: Option<int>)

  /** `REGISTERS[arch][g]`, with Python's negative indices; `KeyError` or `IndexError` otherwise. */
  function Register(arch: string, g: int): Result<string>
  {
    match Registers(arch)
    case None => Fail(KeyError)
    case Some(regs) =>
      if 0 <= g < |regs| then Ok(regs[g])
      else if -|regs| <= g < 0 then Ok(regs[g + |regs|])
      else Fail(IndexError)
  }

  /** The fields a recipe's file name is made of, in order. */
  function NameFields(id: RecipeId): Result<seq<string>>
  {
    var head := ["type" + IntToString(id.recipeType), id.arch, id.platform, id.name];
    match id.gpReg
    case None => Ok(head)
    case Some(g) =>
      var reg :- Register(id.arch, g);
      Ok(head + [reg])
  }

  /** The file name `get_recipe_path` builds: the fields joined by '_', then ".rcp". */
  function RecipeFileName(id: RecipeId): Result<string>
  {
    var fields :- NameFields(id);
    Ok(Join("_", fields) + ".rcp")
  }

  /** `get_recipe_path(...)`: the file name under the project's `recipes` directory. */
  function RecipePath(projectDir: string, id: RecipeId): Result<string>
  {
    var name :- RecipeFileName(id);
    Ok(JoinAll(projectDir, ["recipes", name]))
  }

  predicate NoUnderscore(s: string)
  {
    forall j :: 0 <= j < |s| ==> s[j] != '_'
  }

  lemma NoUnderscoreFree(s: string)
    requires NoUnderscore(s)
    ensures !Contains(s, "_")
  {
    NotContainsChar(s, '_');
  }

  lemma IntToStringNoUnderscore(n: int)
    ensures NoUnderscore(IntToString(n))
  {
    var s := IntToString(n);
    var d := NatDigits(if n < 0 then -n else n);
    assert forall j :: 0 <= j < |d| ==> 0 <= DigitValue(d[j]) < 10;
  }

  lemma RegistersNoUnderscore(arch: string, g: int)
    requires Register(arch, g).Ok?
    ensures NoUnderscore(Register(arch, g).value)
  {
  }

  /**
   * A recipe file name splits back, at '_', into its fields, when the
   * architecture, platform and name hold no '_'.
   */
  lemma RecipeNameFields(id: RecipeId)
    requires NameFields(id).Ok?
    requires NoUnderscore(id.arch) && NoUnderscore(id.platform) && NoUnderscore(id.name)
    ensures var f := RecipeFileName(id).value;
      EndsWith(f, ".rcp") && Split(f[..|f| - 4], "_") == NameFields(id).value
  {
    var fields := NameFields(id).value;
    IntToStringNoUnderscore(id.recipeType);
    assert NoUnderscore("type" + IntToString(id.recipeType));
    if id.gpReg.Some? {
      RegistersNoUnderscore(id.arch, id.gpReg.value);
    }
    forall p | p in fields ensures !Contains(p, "_") {
      NoUnderscoreFree(p);
    }
    SplitJoin(fields, "_");
    var f := RecipeFileName(id).value;
    assert f[..|f| - 4] == Join("_", fields);
  }

  /** `str` is one-to-one. */
  lemma IntToStringInjective(a: int, b: int)
    requires IntToString(a) == IntToString(b)
    ensures a == b
  {
    ParseIntToString(a);
    ParseIntToString(b);
  }

  /** Registers within one architecture are distinct. */
  lemma RegistersDistinct(arch: string, g: int, h: int)
    requires Registers(arch).Some? && 0 <= g < h < |Registers(arch).value|
    ensures Registers(arch).value[g] != Registers(arch).value[h]
  {
  }

  /** A recipe's register field, as a non-negative index, names one register. */
  predicate CanonicalRegister(id: RecipeId)
  {
    id.gpReg.Some? ==> Registers(id.arch).Some? && 0 <= id.gpReg.value < |Registers(id.arch).value|
  }

  /**
   * Different recipes get different file names, as long as architecture,
   * platform and name hold no '_' and registers are given as indices from 0.
   */
  lemma RecipeFileNameInjective(a: RecipeId, b: RecipeId)
    requires RecipeFileName(a).Ok? && RecipeFileName(b).Ok?
    requires NoUnderscore(a.arch) && NoUnderscore(a.platform) && NoUnderscore(a.name)
    requires NoUnderscore(b.arch) && NoUnderscore(b.platform) && NoUnderscore(b.name)
    requires CanonicalRegister(a) && CanonicalRegister(b)
    requires RecipeFileName(a) == RecipeFileName(b)
    ensures a == b
  {
    RecipeNameFields(a);
    RecipeNameFields(b);
    var fa, fb := NameFields(a).value, NameFields(b).value;
    assert fa == fb;
    assert "type" + IntToString(a.recipeType) == "type" + IntToString(b.recipeType);
    assert IntToString(a.recipeType) == ("type" + IntToString(a.recipeType))[4..];
    assert IntToString(b.recipeType) == ("type" + IntToString(b.recipeType))[4..];
    IntToStringInjective(a.recipeType, b.recipeType);
    assert a.arch == fa[1] == b.arch;
    assert a.platform == fa[2] == b.platform;
    assert a.name == fa[3] == b.name;
    assert a.gpReg.Some? <==> |fa| == 5;
    assert b.gpReg.Some? <==> |fb| == 5;
    if a.gpReg.Some? {
      var g, h := a.gpReg.value, b.gpReg.value;
      assert Registers(a.arch).value[g] == fa[4] == Registers(a.arch).value[h];
      if g < h {
        RegistersDistinct(a.arch, g, h);
      } else if h < g {
        RegistersDistinct(a.arch, h, g);
      }
    }
  }

  /** Two file names under the same `recipes` directory give the same path only when they are equal. */
  lemma RecipesDirInjective(projectDir: string, f: string, f': string)
    requires f != [] && f[0] != '/' && f' != [] && f'[0] != '/'
    requires JoinAll(projectDir, ["recipes", f]) == JoinAll(projectDir, ["recipes", f'])
    ensures f == f'
  {
    var base := Join2(projectDir, "recipes");
    JoinRecipes(projectDir, f);
    JoinRecipes(projectDir, f');
    assert f == (base + "/" + f)[|base| + 1..];
    assert f' == (base + "/" + f')[|base| + 1..];
  }

  /** A relative name under `recipes` is appended after one '/'. */
  lemma JoinRecipes(projectDir: string, f: string)
    requires f != [] && f[0] != '/'
    ensures JoinAll(projectDir, ["recipes", f]) == Join2(projectDir, "recipes") + "/" + f
  {
    var base := Join2(projectDir, "recipes");
    assert ["recipes", f][1..] == [f];
    assert JoinAll(projectDir, ["recipes", f]) == JoinAll(base, [f]);
    assert [f][1..] == [];
    assert JoinAll(base, [f]) == Join2(base, f);
    assert EndsWith(base, "recipes");
    assert base[|base| - 1] == 's';
    assert !IsAbs(f);
  }

  /** The architectures `handle` writes recipes for: both for an x86_64 image, i386 alone for an i386 one. */
  function Archs(imageArch: string): (r: seq<string>)
  {
    if imageArch == "x86_64" then ["amd64", "i386"] else if imageArch == "i386" then ["i386"] else []
  }

  /** Every listed architecture has registers and a word size, and none is listed twice. */
  lemma ArchsKnown(imageArch: string)
    ensures forall a :: a in Archs(imageArch) ==> Registers(a).Some? && Bits(a).Some? && NoUnderscore(a)
    ensures forall i, j :: 0 <= i < j < |Archs(imageArch)| ==> Archs(imageArch)[i] != Archs(imageArch)[j]
  {
  }

  const Flavors: seq<string> := ["reg", "shellcode"]

  /** The type-1 recipes for one architecture: per register, one per flavour. */
  function Type1For(arch: string): (r: seq<RecipeId>)
    requires Registers(arch).Some?
    ensures |r| == 2 * |Registers(arch).value|
  {
    var n := |Registers(arch).value|;
    seq(2 * n, j requires 0 <= j < 2 * n => RecipeId(1, arch, "generic", Flavors[j % 2], Some(j / 2)))
  }

  function Type1Recipes(archs: seq<string>): seq<RecipeId>
    requires forall a :: a in archs ==> Registers(a).Some?
  {
    if archs == [] then [] else Type1For(archs[0]) + Type1Recipes(archs[1..])
  }

  /** The two DECREE shellcode recipes. */
  const DecreeRecipes: seq<RecipeId> :=
    [RecipeId(2, "i386", "decree", "shellcode_0", None), RecipeId(2, "i386", "decree", "shellcode_1", None)]

  /** Every recipe `handle` writes, in the order it writes them. */
  function HandleRecipes(imageArch: string, binaryFormats: seq<string>): seq<RecipeId>
  {
    ArchsKnown(imageArch);
    Type1Recipes(Archs(imageArch)) + if "decree" in binaryFormats then DecreeRecipes else []
  }

  /** The loops of `handle`, listing the recipes in the order their files are written. */
  method ListRecipes(imageArch: string, binaryFormats: seq<string>) returns (recipes: seq<RecipeId>)
    ensures recipes == HandleRecipes(imageArch, binaryFormats)
  {
    var archs := Archs(imageArch);
    ArchsKnown(imageArch);
    recipes := [];
    for i := 0 to |archs|
      invariant recipes + Type1Recipes(archs[i..]) == Type1Recipes(archs)
    {
      var arch := archs[i];
      var regs := Registers(arch).value;
      var forArch: seq<RecipeId> := [];
      for g := 0 to |regs|
        invariant forArch == Type1For(arch)[..2 * g]
      {
        for f := 0 to |Flavors|
          invariant forArch == Type1For(arch)[..2 * g + f]
        {
          forArch := forArch + [RecipeId(1, arch, "generic", Flavors[f], Some(g))];
        }
      }
      assert archs[i..][1..] == archs[i + 1..];
      recipes := recipes + forArch;
    }
    assert archs[|archs|..] == [];
    if "decree" in binaryFormats {
      recipes := recipes + DecreeRecipes;
    }
  }

  /** A type-1 recipe whose file name exists and splits back into its fields. */
  predicate WellFormedType1(id: RecipeId)
  {
    id.recipeType == 1 && RecipeFileName(id).Ok? && CanonicalRegister(id)
    && NoUnderscore(id.arch) && NoUnderscore(id.platform) && NoUnderscore(id.name)
  }

  lemma Type1ForEntries(arch: string)
    requires Registers(arch).Some? && NoUnderscore(arch)
    ensures forall j :: 0 <= j < |Type1For(arch)| ==> WellFormedType1(Type1For(arch)[j]) && Type1For(arch)[j].arch == arch
    ensures forall i, j :: 0 <= i < j < |Type1For(arch)| ==> Type1For(arch)[i] != Type1For(arch)[j]
  {
    var t := Type1For(arch);
    forall j | 0 <= j < |t| ensures WellFormedType1(t[j]) {
      assert NoUnderscore(Flavors[j % 2]);
      assert Register(arch, j / 2).Ok?;
    }
    forall i, j | 0 <= i < j < |t| ensures t[i] != t[j] {
      if i % 2 == j % 2 {
        assert i / 2 != j / 2;
      }
    }
  }

  /** The type-1 recipes for distinct architectures are well formed and all different. */
  lemma {:induction false} Type1Entries(archs: seq<string>)
    requires forall a :: a in archs ==> Registers(a).Some? && NoUnderscore(a)
    requires forall i, j :: 0 <= i < j < |archs| ==> archs[i] != archs[j]
    ensures forall i :: 0 <= i < |Type1Recipes(archs)| ==>
      WellFormedType1(Type1Recipes(archs)[i]) && Type1Recipes(archs)[i].arch in archs
    ensures forall i, j :: 0 <= i < j < |Type1Recipes(archs)| ==> Type1Recipes(archs)[i] != Type1Recipes(archs)[j]
    decreases |archs|
  {
    if archs != [] {
      var head, rest := Type1For(archs[0]), Type1Recipes(archs[1..]);
      Type1ForEntries(archs[0]);
      Type1Entries(archs[1..]);
      var t := Type1Recipes(archs);
      assert t == head + rest;
      forall i | 0 <= i < |rest| ensures rest[i].arch != archs[0] {
        assert rest[i].arch in archs[1..];
      }
      forall i, j | 0 <= i < j < |t| ensures t[i] != t[j] {
        if j >= |head| && i < |head| {
          assert t[j] == rest[j - |head|];
        }
      }
    }
  }

  /** A recipe file name starts with `type`, its type number and '_'. */
  lemma FileNamePrefix(id: RecipeId)
    requires RecipeFileName(id).Ok?
    ensures var f := RecipeFileName(id).value; var p := "type" + IntToString(id.recipeType) + "_";
      |p| <= |f| && f[..|p|] == p
  {
    var fields := NameFields(id).value;
    assert fields[1..] != [];
    JoinCons("_", fields[0], fields[1..]);
    assert [fields[0]] + fields[1..] == fields;
  }

  lemma SmallIntStrings()
    ensures IntToString(1) == "1" && IntToString(2) == "2"
  {
    assert NatDigits(1) == "1";
    assert NatDigits(2) == "2";
  }

  /** Recipes of different types never share a file name. */
  lemma TypesApart(a: RecipeId, b: RecipeId)
    requires RecipeFileName(a).Ok? && RecipeFileName(b).Ok?
    requires a.recipeType == 1 && b.recipeType == 2
    ensures RecipeFileName(a).value != RecipeFileName(b).value
  {
    SmallIntStrings();
    FileNamePrefix(a);
    FileNamePrefix(b);
    assert RecipeFileName(a).value[4] == '1';
    assert RecipeFileName(b).value[4] == '2';
  }

  lemma DecreeFileName(n: string)
    ensures RecipeFileName(RecipeId(2, "i386", "decree", n, None))
      == Ok(Join("_", ["type2", "i386", "decree"]) + "_" + n + ".rcp")
  {
    SmallIntStrings();
    assert "type" + IntToString(2) == "type2";
    assert NameFields(RecipeId(2, "i386", "decree", n, None)) == Ok(["type2", "i386", "decree", n]);
    JoinCons("_", "type2", ["i386", "decree", n]);
    JoinCons("_", "i386", ["decree", n]);
    JoinCons("_", "decree", [n]);
    JoinCons("_", "type2", ["i386", "decree"]);
    JoinCons("_", "i386", ["decree"]);
    assert Join("_", [n]) == n;
    assert Join("_", ["decree"]) == "decree";
    assert Join("_", ["type2", "i386", "decree", n]) == Join("_", ["type2", "i386", "decree"]) + "_" + n;
  }

  /** The two DECREE recipes have file names, differing in the shellcode's number. */
  lemma DecreeFileNames()
    ensures RecipeFileName(DecreeRecipes[0]).Ok? && RecipeFileName(DecreeRecipes[1]).Ok?
    ensures RecipeFileName(DecreeRecipes[0]).value != RecipeFileName(DecreeRecipes[1]).value
  {
    var head := Join("_", ["type2", "i386", "decree"]);
    DecreeFileName("shellcode_0");
    DecreeFileName("shellcode_1");
    var f0, f1 := RecipeFileName(DecreeRecipes[0]).value, RecipeFileName(DecreeRecipes[1]).value;
    assert f0 == head + "_" + "shellcode_0" + ".rcp";
    assert f1 == head + "_" + "shellcode_1" + ".rcp";
    assert f0[|head| + 11] == '0';
    assert f1[|head| + 11] == '1';
  }

  /** Two different recipes of the kinds `handle` writes have different file names. */
  lemma EntriesApart(a: RecipeId, b: RecipeId)
    requires WellFormedType1(a) || a in DecreeRecipes
    requires WellFormedType1(b) || b in DecreeRecipes
    requires a != b
    ensures RecipeFileName(a).Ok? && RecipeFileName(b).Ok?
    ensures RecipeFileName(a).value != RecipeFileName(b).value
  {
    DecreeFileNames();
    if WellFormedType1(a) && WellFormedType1(b) {
      if RecipeFileName(a).value == RecipeFileName(b).value {
        RecipeFileNameInjective(a, b);
      }
    } else if WellFormedType1(a) {
      TypesApart(a, b);
    } else if WellFormedType1(b) {
      TypesApart(b, a);
    }
  }

  /** Every recipe `handle` writes has a file name, and no two share one. */
  lemma HandleFileNamesDistinct(imageArch: string, binaryFormats: seq<string>)
    ensures var r := HandleRecipes(imageArch, binaryFormats);
      forall i :: 0 <= i < |r| ==> RecipeFileName(r[i]).Ok?
    ensures var r := HandleRecipes(imageArch, binaryFormats);
      forall i, j :: 0 <= i < j < |r| ==> RecipeFileName(r[i]).value != RecipeFileName(r[j]).value
  {
    var r := HandleRecipes(imageArch, binaryFormats);
    ArchsKnown(imageArch);
    var t := Type1Recipes(Archs(imageArch));
    Type1Entries(Archs(imageArch));
    DecreeFileNames();
    var d := if "decree" in binaryFormats then DecreeRecipes else [];
    assert r == t + d;
    forall i | 0 <= i < |r| ensures WellFormedType1(r[i]) || r[i] in DecreeRecipes {
      if i >= |t| {
        assert r[i] == d[i - |t|];
      }
    }
    forall i, j | 0 <= i < j < |r| ensures RecipeFileName(r[i]).value != RecipeFileName(r[j]).value {
      if j < |t| {
        assert r[i] != r[j];
      } else if i < |t| {
        assert r[j] == d[j - |t|] && r[j].recipeType == 2;
      } else {
        assert r[i] == d[0] && r[j] == d[1];
      }
      EntriesApart(r[i], r[j]);
    }
  }

  /**
   * No two recipes `handle` writes share a path: every path exists, and
   * different recipes land in different files under the project's
   * `recipes` directory.
   */
  lemma HandleRecipesDistinct(projectDir: string, imageArch: string, binaryFormats: seq<string>)
    ensures var r := HandleRecipes(imageArch, binaryFormats);
      forall i :: 0 <= i < |r| ==> RecipePath(projectDir, r[i]).Ok?
    ensures var r := HandleRecipes(imageArch, binaryFormats);
      forall i, j :: 0 <= i < j < |r| ==> RecipePath(projectDir, r[i]).value != RecipePath(projectDir, r[j]).value
  {
    var r := HandleRecipes(imageArch, binaryFormats);
    HandleFileNamesDistinct(imageArch, binaryFormats);
    forall i | 0 <= i < |r| ensures RecipePath(projectDir, r[i]).Ok? {
    }
    forall i, j | 0 <= i < j < |r| ensures RecipePath(projectDir, r[i]).value != RecipePath(projectDir, r[j]).value {
      var fi, fj := RecipeFileName(r[i]).value, RecipeFileName(r[j]).value;
      FileNamePrefix(r[i]);
      FileNamePrefix(r[j]);
      if RecipePath(projectDir, r[i]).value == RecipePath(projectDir, r[j]).value {
        RecipesDirInjective(projectDir, fi, fj);
      }
    }
  }
}
