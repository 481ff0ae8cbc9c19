// infparser/version.py: the target OS decoration of an INF models section,
// `nt[Architecture][.[Major][.[Minor][.[ProductType][.SuiteMask]]]]`.
module InfVersions {
  import opened Wrappers
  import opened PyStr

  /** `InfVersion`: every field is None when absent or empty. */
  datatype InfVersion = InfVersion(
    architecture: Option<string>,
    major: Option<int>,
    minor: Option<int>,
    productType: Option<int>,
    suiteMask: Option<int>)

  /** What the constructor leaves when there is no usable decoration. */
  const Unversioned := InfVersion(None, None, None, None, None)

  /** Field `i` of the dotted decoration, read with `int(field, base)`. */
  function Field(v: seq<string>, i: nat, base: nat): (r: Result<Option<int>>)
    requires base == 10 || base == 16
    ensures r.Fail? ==> r.error == ValueError
  {
    if i >= |v| || v[i] == [] then Ok(None)
    else
      match ParseInt(v[i], base)
      case None => Fail(ValueError)
      case Some(n) => Ok(Some(n))
  }

  /**
   * `InfVersion(version)`: None or a decoration that does not start with
   * "nt" (ignoring case) gives no fields; otherwise the lower-cased
   * decoration's dot fields are the architecture, the major and minor
   * versions (decimal) and the product type and suite mask (hexadecimal),
   * with "ntx86" normalised to "nt". A field that is not a number is a
   * ValueError.
   */
  function Parse(version: Option<string>): (r: Result<InfVersion>)
    ensures version.None? ==> r == Ok(Unversioned)
    ensures version.Some? && !StartsWith(Lower(version.value), "nt") ==> r == Ok(Unversioned)
    ensures r.Fail? ==> r.error == ValueError
    ensures version.Some? && StartsWith(Lower(version.value), "nt") && r.Ok? ==>
      r.value.architecture.Some? && StartsWith(r.value.architecture.value, "nt") &&
      r.value.architecture.value != "ntx86"
  {
    if version.None? then Ok(Unversioned)
    else
      var lowered := Lower(version.value);
      if !StartsWith(lowered, "nt") then Ok(Unversioned)
      else
        var v := Split(lowered, ".");
        var major :- Field(v, 1, 10);
        var minor :- Field(v, 2, 10);
        var productType :- Field(v, 3, 16);
        var suiteMask :- Field(v, 4, 16);
        ArchitectureField(lowered);
        var arch := if v[0] == "ntx86" then "nt" else v[0];
        Ok(InfVersion(Some(arch), major, minor, productType, suiteMask))
  }

  /** The first dot field of a decoration starting with "nt" starts with "nt" too. */
  lemma ArchitectureField(s: string)
    requires StartsWith(s, "nt")
    ensures StartsWith(Split(s, ".")[0], "nt")
  {
    assert s[0] == 'n' && s[1] == 't';
    var i := Find(s, ".");
    if i >= 0 {
      assert s[i..i + 1] == ".";
      assert s[i] == '.';
      assert i >= 2;
      assert Split(s, ".")[0] == s[..i];
    }
  }

  /** Both architectures are set and they differ. */
  predicate ArchMismatch(v: InfVersion, desired: InfVersion)
  {
    v.architecture.Some? && desired.architecture.Some? && desired.architecture != v.architecture
  }

  /** `(a0, a1) < (b0, b1)` on Python tuples of ints. */
  predicate TupleLess(a0: int, a1: int, b0: int, b1: int)
  {
    a0 < b0 || (a0 == b0 && a1 < b1)
  }

  predicate Full(v: InfVersion)
  {
    v.major.Some? && v.minor.Some?
  }

  /** `matches`, as written: the majors are compared the other way round when a minor is missing. */
  predicate Matches(v: InfVersion, desired: InfVersion)
  {
    if ArchMismatch(v, desired) then false
    else if Full(v) && Full(desired) &&
      TupleLess(desired.major.value, desired.minor.value, v.major.value, v.minor.value) then false
    else if (v.minor.None? || desired.minor.None?) && v.major.Some? && desired.major.Some? &&
      v.major.value < desired.major.value then false
    else true
  }

  /** `matches` with the missing-minor case comparing the majors in the same direction as the full case. */
  predicate MatchesFixed(v: InfVersion, desired: InfVersion)
  {
    if ArchMismatch(v, desired) then false
    else if Full(v) && Full(desired) &&
      TupleLess(desired.major.value, desired.minor.value, v.major.value, v.minor.value) then false
    else if (v.minor.None? || desired.minor.None?) && v.major.Some? && desired.major.Some? &&
      desired.major.value < v.major.value then false
    else true
  }

  /**
   * With full versions, `matches` accepts exactly a desired version that is
   * not older than this one (and of a compatible architecture).
   */
  lemma MatchesFull(v: InfVersion, desired: InfVersion)
    requires Full(v) && Full(desired)
    ensures Matches(v, desired) <==>
      !ArchMismatch(v, desired) && !TupleLess(desired.major.value, desired.minor.value, v.major.value, v.minor.value)
    ensures MatchesFixed(v, desired) == Matches(v, desired)
  {
  }

  /** A version with no fields matches any version, and any version matches it. */
  lemma UnversionedMatches(v: InfVersion)
    ensures Matches(Unversioned, v) && Matches(v, Unversioned)
    ensures MatchesFixed(Unversioned, v) && MatchesFixed(v, Unversioned)
  {
  }

  /** Every version matches itself. */
  lemma MatchesReflexive(v: InfVersion)
    ensures Matches(v, v) && MatchesFixed(v, v)
  {
  }

  /** The version with its minor dropped. */
  function DropMinor(v: InfVersion): InfVersion
  {
    v.(minor := None)
  }

  /**
   * Dropping the minor version of this version flips the verdict of `matches`
   * when the majors differ: 6.1 does not match a desired 5.1, but 6 does.
   */
  lemma MatchesDropMinorFlips()
    ensures var v := InfVersion(Some("nt"), Some(6), Some(1), None, None);
      var desired := InfVersion(Some("nt"), Some(5), Some(1), None, None);
      !Matches(v, desired) && Matches(DropMinor(v), desired)
  {
  }

  /**
   * With the correction, when the majors differ the verdict depends on the
   * majors alone, whatever minors either side has: the desired version must
   * have the later major.
   */
  lemma MatchesFixedByMajor(v: InfVersion, desired: InfVersion)
    requires !ArchMismatch(v, desired)
    requires v.major.Some? && desired.major.Some? && v.major.value != desired.major.value
    ensures MatchesFixed(v, desired) <==> v.major.value < desired.major.value
    ensures MatchesFixed(DropMinor(v), desired) == MatchesFixed(v, desired)
    ensures MatchesFixed(v, DropMinor(desired)) == MatchesFixed(v, desired)
  {
  }

  /** `__str__`: the architecture, then " major" and ".minor" when present. */
  function ToString(v: InfVersion): string
  {
    if v.architecture.None? then "Windows 2000 and later"
    else
      v.architecture.value +
      if v.major.None? then ""
      else " " + IntToString(v.major.value) + if v.minor.None? then "" else "." + IntToString(v.minor.value)
  }

  /** A decoration `arch.major.minor` as an INF file writes it. */
  function Decoration(arch: string, major: int, minor: int): string
  {
    Join(".", [arch, IntToString(major), IntToString(minor)])
  }

  /** An architecture field as the parser leaves it: lower case, no dot, "nt" first, not "ntx86". */
  predicate ArchName(arch: string)
  {
    StartsWith(arch, "nt") && arch != "ntx86" && Lower(arch) == arch && !Contains(arch, ".")
  }

  /** Parsing a written-out decoration gives its fields back. */
  lemma ParseDecoration(arch: string, major: int, minor: int)
    requires ArchName(arch)
    ensures Parse(Some(Decoration(arch, major, minor))) == Ok(InfVersion(Some(arch), Some(major), Some(minor), None, None))
  {
    var s := Decoration(arch, major, minor);
    var a, b := IntToString(major), IntToString(minor);
    DecorationLower(arch, major, minor);
    DecorationSplit(arch, major, minor);
    var v := Split(Lower(s), ".");
    assert v == [arch, a, b];
    ParseIntToString(major);
    ParseIntToString(minor);
    assert Field(v, 1, 10) == Ok(Some(major));
    assert Field(v, 2, 10) == Ok(Some(minor));
    assert Field(v, 3, 16) == Ok(None) && Field(v, 4, 16) == Ok(None);
  }

  /** Printing a parsed `arch.major.minor` writes the architecture, a space and "major.minor". */
  lemma PrintDecoration(arch: string, major: int, minor: int)
    requires ArchName(arch)
    ensures var v := Parse(Some(Decoration(arch, major, minor)));
      v.Ok? && ToString(v.value) == arch + " " + IntToString(major) + "." + IntToString(minor)
  {
    ParseDecoration(arch, major, minor);
  }

  /** A decoration in the written-out form is its own lower-case form and starts with "nt". */
  lemma DecorationLower(arch: string, major: int, minor: int)
    requires ArchName(arch)
    ensures var s := Decoration(arch, major, minor);
      Lower(s) == s && StartsWith(s, "nt")
  {
    var s := Decoration(arch, major, minor);
    var a, b := IntToString(major), IntToString(minor);
    DecorationText(arch, a, b);
    IntToStringLower(major);
    IntToStringLower(minor);
    LowerConcat(arch, ".");
    LowerConcat(arch + ".", a);
    LowerConcat(arch + "." + a, ".");
    LowerConcat(arch + "." + a + ".", b);
    assert s[..2] == arch[..2];
  }

  lemma DecorationText(arch: string, a: string, b: string)
    ensures Join(".", [arch, a, b]) == arch + "." + a + "." + b
  {
    JoinCons(".", arch, [a, b]);
    JoinCons(".", a, [b]);
  }

  /** A decoration splits at its dots into the architecture and the two numbers. */
  lemma DecorationSplit(arch: string, major: int, minor: int)
    requires ArchName(arch)
    ensures Split(Decoration(arch, major, minor), ".") == [arch, IntToString(major), IntToString(minor)]
  {
    var a, b := IntToString(major), IntToString(minor);
    IntToStringHasNoDot(major);
    IntToStringHasNoDot(minor);
    assert forall p :: p in [arch, a, b] ==> !Contains(p, ".");
    SplitJoin([arch, a, b], ".");
  }

  /** Lower-casing works character by character. */
  lemma LowerConcat(x: string, y: string)
    ensures Lower(x + y) == Lower(x) + Lower(y)
  {
    assert forall i :: 0 <= i < |x + y| ==> Lower(x + y)[i] == (Lower(x) + Lower(y))[i];
  }

  /** `str(n)` holds only digits and a sign. */
  lemma IntToStringChars(n: int)
    ensures forall i :: 0 <= i < |IntToString(n)| ==> IntToString(n)[i] == '-' || '0' <= IntToString(n)[i] <= '9'
  {
    var s := IntToString(n);
    var d := NatDigits(if n < 0 then -n else n);
    assert forall i :: 0 <= i < |d| ==> 0 <= DigitValue(d[i]) < 10;
    if n < 0 {
      assert forall i :: 1 <= i < |s| ==> s[i] == d[i - 1];
    }
  }

  lemma IntToStringLower(n: int)
    ensures Lower(IntToString(n)) == IntToString(n)
  {
    IntToStringChars(n);
  }

  lemma IntToStringHasNoDot(n: int)
    ensures !Contains(IntToString(n), ".")
  {
    IntToStringChars(n);
    NotContainsChar(IntToString(n), '.');
  }
}
