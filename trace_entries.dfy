// execution_trace/trace_entries.py: the binary layout of the entries S2E's
// execution tracers write. Every entry has a fixed header giving its type and
// size; most entry kinds are a fixed struct of little-endian integers, a few
// (forks, caches, memory checker records, test cases) have a size known only
// from the header.
module TraceEntries {
  import opened Wrappers
  import opened PyStruct
  import PyStr
  import TraceTestCases

  type Bytes = seq<Byte>

  /** `TraceEntryType`: an integer enumeration of the entry kinds, numbered 0 to 23. */
  type EntryType = v: int | 0 <= v < 24

  const ModLoad: EntryType := 0
  const ModUnload: EntryType := 1
  const ProcUnload: EntryType := 2
  const Call: EntryType := 3
  const Ret: EntryType := 4
  const TbStart: EntryType := 5
  const TbEnd: EntryType := 6
  const ModuleDesc: EntryType := 7
  const Fork: EntryType := 8
  const CacheSim: EntryType := 9
  const TestCase: EntryType := 10
  const BranchCov: EntryType := 11
  const Memory: EntryType := 12
  const PageFault: EntryType := 13
  const TlbMiss: EntryType := 14
  const ICount: EntryType := 15
  const MemChecker: EntryType := 16
  const Exception: EntryType := 17
  const StateSwitch: EntryType := 18
  const TbStartX64: EntryType := 19
  const TbEndX64: EntryType := 20
  const Block: EntryType := 21
  const OsInfo: EntryType := 22
  const Max: EntryType := 23

  /** `TraceEntryType(v)`: the kind numbered `v`, or ValueError. */
  function EntryTypeOf(v: int): (r: Result<EntryType>)
    ensures r.Ok? <==> 0 <= v < 24
    ensures r.Ok? ==> r.value == v
    ensures r.Fail? ==> r.error == ValueError
  {
    if 0 <= v < 24 then Ok(v) else Fail(ValueError)
  }

  /** The entry classes of the module. */
  datatype EntryClass =
    | TraceItemHeader | TraceModuleLoad | TraceModuleUnload | TraceProcessUnload | TraceCall
    | TraceReturn | TraceFork | TraceBranchCoverage | TraceCacheSimParams | TraceCacheSimName
    | TraceCacheSimEntry | TraceCache | TraceMemChecker | TraceTestCase | TraceMemory
    | TracePageFault | TraceTLBMiss | TraceInstructionCount | TraceTranslationBlock | TraceBlock
    | TraceTranslationBlock64 | TraceException | TraceStateSwitch | TraceOSInfo

  /** Each class's `FORMAT` attribute; `TraceTestCase` inherits None. */
  function Format(cls: EntryClass): Option<string>
  {
    match cls
    case TraceItemHeader => Some("<IIQQQQI")
    case TraceModuleLoad => Some("<32s256sQQQQQ")
    case TraceModuleUnload => Some("<QQQ")
    case TraceProcessUnload => Some("<Q")
    case TraceCall => Some("<QQ")
    case TraceReturn => Some("<QQ")
    case TraceFork => Some("<I%dI")
    case TraceBranchCoverage => Some("<QQ")
    case TraceCacheSimParams => Some("<BIIIII")
    case TraceCacheSimName => Some("<BII%ds")
    case TraceCacheSimEntry => Some("<BBQQBBBB")
    case TraceCache => Some("<B21s%ds22s")
    case TraceMemChecker => Some("<QIII%ds")
    case TraceTestCase => None
    case TraceMemory => Some("<QQQBBQQ")
    case TracePageFault => Some("<QQB")
    case TraceTLBMiss => Some("<QQB")
    case TraceInstructionCount => Some("<Q")
    case TraceTranslationBlock => Some("<QQIBBB8Q")
    case TraceBlock => Some("<QQB")
    case TraceTranslationBlock64 => Some("<SB8Q")
    case TraceException => Some("<QI")
    case TraceStateSwitch => Some("<I")
    case TraceOSInfo => Some("<Q")
  }

  /** The number of arguments each class's constructor takes. */
  function Arity(cls: EntryClass): nat
  {
    match cls
    case TraceItemHeader => 7 case TraceModuleLoad => 7 case TraceModuleUnload => 3
    case TraceProcessUnload => 1 case TraceCall => 2 case TraceReturn => 2 case TraceFork => 1
    case TraceBranchCoverage => 2 case TraceCacheSimParams => 6 case TraceCacheSimName => 3
    case TraceCacheSimEntry => 8 case TraceCache => 4 case TraceMemChecker => 4
    case TraceTestCase => 1 case TraceMemory => 7 case TracePageFault => 3 case TraceTLBMiss => 3
    case TraceInstructionCount => 1 case TraceTranslationBlock => 7 case TraceBlock => 3
    case TraceTranslationBlock64 => 3 case TraceException => 2 case TraceStateSwitch => 1
    case TraceOSInfo => 1
  }

  /** `TraceEntry.static_size`: `struct.calcsize(FORMAT)`; a format struct rejects is a TraceEntryError, a missing one a TypeError. */
  function StaticSize(cls: EntryClass): Result<nat>
  {
    match Format(cls)
    case None => Fail(TypeError)
    case Some(fmt) =>
      match ParseFormat(fmt)
      case Fail(_) => Fail(TraceEntryError)
      case Ok(codes) => Ok(Size(codes))
  }

  /** The generic `TraceEntry.deserialize`: unpack with FORMAT, then call the constructor with the values. */
  function DeserializeFields(cls: EntryClass, data: Bytes): Result<seq<Field>>
  {
    match Format(cls)
    case None => Fail(TypeError)
    case Some(fmt) =>
      match ParseFormat(fmt)
      case Fail(_) => Fail(TraceEntryError)
      case Ok(codes) =>
        match Unpack(codes, data)
        case Fail(_) => Fail(TraceEntryError)
        case Ok(fields) => if |fields| != Arity(cls) then Fail(TypeError) else Ok(fields)
  }

  function AsNat(f: Field): nat
  {
    if f.Int? && f.n >= 0 then f.n else 0
  }

  function AsBytes(f: Field): Bytes
  {
    if f.Bytes? then f.b else []
  }

  function Nats(fields: seq<Field>): (r: seq<nat>)
    ensures |r| == |fields| && forall i :: 0 <= i < |fields| ==> r[i] == AsNat(fields[i])
  {
    seq(|fields|, i requires 0 <= i < |fields| => AsNat(fields[i]))
  }

  // ---------------------------------------------------------------------
  // Headers

  /** `TraceItemHeader`. */
  datatype Header = Header(entryType: EntryType, stateId: nat, timestamp: nat, addressSpace: nat, pid: nat, pc: nat, size: nat)

  /** `TraceItemHeader.deserialize`: the generic decoder, then `TraceEntryType(type_)`, which raises ValueError for an unknown kind. */
  function DeserializeHeader(data: Bytes): Result<Header>
  {
    var f :- DeserializeFields(TraceItemHeader, data);
    var t :- EntryTypeOf(AsNat(f[0]));
    Ok(Header(t, AsNat(f[1]), AsNat(f[2]), AsNat(f[3]), AsNat(f[4]), AsNat(f[5]), AsNat(f[6])))
  }

  const HeaderCodes: seq<Code> := [UInt(4), UInt(4), UInt(8), UInt(8), UInt(8), UInt(8), UInt(4)]

  /** The header is the 44 bytes of '<IIQQQQI'. */
  lemma HeaderLayout()
    ensures ParseFormat(Format(TraceItemHeader).value) == Ok(HeaderCodes)
    ensures StaticSize(TraceItemHeader) == Ok(44)
  {
    var fmt := Format(TraceItemHeader).value;
    var body := "IIQQQQI";
    assert forall i :: 0 <= i < 7 ==> IsPlain(body[i]) && HeaderCodes[i] == Plain(body[i]);
    PlainLayout(fmt, body);
    assert Plains(body) == HeaderCodes;
    assert Size(HeaderCodes) == 44;
  }

  /**
   * A header decodes exactly from 44 bytes whose first word is a known
   * kind: fewer or more bytes are a TraceEntryError, an unknown kind a
   * ValueError; the fields are the little-endian words in order.
   */
  lemma DeserializeHeaderSpec(data: Bytes)
    ensures DeserializeHeader(data).Ok? <==> |data| == 44 && FromLE(data[..4]) < 24
    ensures |data| != 44 ==> DeserializeHeader(data) == Fail(TraceEntryError)
    ensures |data| == 44 && FromLE(data[..4]) >= 24 ==> DeserializeHeader(data) == Fail(ValueError)
    ensures DeserializeHeader(data).Ok? ==>
      var h := DeserializeHeader(data).value;
      h.entryType == FromLE(data[..4]) && h.stateId == FromLE(data[4..8]) &&
      h.timestamp == FromLE(data[8..16]) && h.size == FromLE(data[40..44])
  {
    HeaderLayout();
    if |data| == 44 {
      var f := UnpackAll(HeaderCodes, data);
      HeaderFields(data);
    }
  }

  lemma HeaderFields(data: Bytes)
    requires |data| == 44
    ensures var f := UnpackAll(HeaderCodes, data);
      |f| == 7 && f[0] == Int(FromLE(data[..4])) && f[1] == Int(FromLE(data[4..8])) &&
      f[2] == Int(FromLE(data[8..16])) && f[6] == Int(FromLE(data[40..44]))
  {
    HeaderWords(HeaderCodes, data);
  }

  lemma HeaderWords(c: seq<Code>, data: Bytes)
    requires c == HeaderCodes && |data| == 44
    ensures var f := UnpackAll(c, data);
      |f| == 7 && f[0] == Int(FromLE(data[..4])) && f[1] == Int(FromLE(data[4..8])) &&
      f[2] == Int(FromLE(data[8..16])) && f[6] == Int(FromLE(data[40..44]))
  {
    HeaderOffsets(c);
    UIntAt(c, data, 0, 0, 4);
    assert data[0..4] == data[..4];
    UIntAt(c, data, 1, 4, 4);
    UIntAt(c, data, 2, 8, 8);
    UIntAt(c, data, 6, 40, 4);
  }

  /** The header's words start at bytes 0, 4, 8 and 40 of 44. */
  lemma HeaderOffsets(c: seq<Code>)
    requires c == HeaderCodes
    ensures Size(c) == 44
    ensures Size(c[..0]) == 0 && Size(c[..1]) == 4 && Size(c[..2]) == 8 && Size(c[..6]) == 40
  {
    assert c[..0] == [];
    assert c[..1] == [UInt(4)];
    assert c[..2] == [UInt(4), UInt(4)];
    assert c[..6] == [UInt(4), UInt(4), UInt(8), UInt(8), UInt(8), UInt(8)];
    assert Size([UInt(4)]) == 4;
    assert Size([UInt(4), UInt(4)]) == 8;
    assert Size([UInt(4), UInt(4), UInt(8), UInt(8), UInt(8), UInt(8)]) == 40;
    assert Size(HeaderCodes) == 44;
  }

  // ---------------------------------------------------------------------
  // Entries

  /** A decoded trace entry. */
  datatype Item =
      /** `TraceModuleLoad`, with the raw NUL-padded name and path. */
    | ModuleLoadItem(rawName: Bytes, rawPath: Bytes, loadBase: nat, nativeBase: nat, size: nat, addressSpace: nat, pid: nat)
      /** An entry of a class whose fields are all integers, in the order of its FORMAT. */
    | Fixed(cls: EntryClass, values: seq<nat>)
      /** `TraceFork` as decoded: the ids of the child states. */
    | ForkItem(children: seq<nat>)
      /** `TraceFork` once the parser has attached them: each child state's trace. */
    | ForkTree(branches: seq<Branch>)
      /** `TraceTestCase`. */
    | TestCaseItem(testcase: TraceTestCases.TestCase)

  datatype Entry = Entry(header: Header, item: Item)

  /** One entry of a fork's `children` dictionary: a child state and its trace. */
  datatype Branch = Branch(id: nat, trace: seq<Entry>)

  /** `str.rstrip('\0')`. */
  function StripNuls(b: Bytes): (r: Bytes)
    ensures |r| <= |b| && r == b[..|r|]
    ensures r == [] || r[|r| - 1] != 0
    ensures forall i :: |r| <= i < |b| ==> b[i] == 0
  {
    if b != [] && b[|b| - 1] == 0 then StripNuls(b[..|b| - 1]) else b
  }

  /** `TraceModuleLoad.name` and `.path`: the raw field without its trailing NULs. */
  function Name(item: Item): Bytes
    requires item.ModuleLoadItem?
  {
    StripNuls(item.rawName)
  }

  function Path(item: Item): Bytes
    requires item.ModuleLoadItem?
  {
    StripNuls(item.rawPath)
  }

  /** The item a class's constructor builds from the unpacked values. */
  function Construct(cls: EntryClass, f: seq<Field>): Item
  {
    if cls == TraceModuleLoad && |f| == 7 then
      ModuleLoadItem(AsBytes(f[0]), AsBytes(f[1]), AsNat(f[2]), AsNat(f[3]), AsNat(f[4]), AsNat(f[5]), AsNat(f[6]))
    else Fixed(cls, Nats(f))
  }

  /** `FORMAT % n` for a FORMAT of '<', some codes, then '%d' and one code character. */
  function CountFormat(codes: string, n: int, c: char): string
  {
    "<" + codes + PyStr.IntToString(n) + [c]
  }

  /** The values of a struct whose codes were '<I' then `n` more 'I's, as a tuple without its first element. */
  function Tail(fields: seq<Field>): seq<nat>
  {
    if fields == [] then [] else Nats(fields[1..])
  }

  /**
   * `TraceFork.deserialize`: a size is required; it holds a count word and
   * (size - 4) / 4 child ids (Python 2 floor division), and the data must
   * have exactly that length. The count word itself is ignored.
   */
  function DeserializeFork(data: Bytes, size: Option<nat>): Result<Item>
  {
    if size.None? || size.value == 0 then Fail(TraceEntryError)
    else
      var n := (size.value - 4) / 4;
      var codes :- ParseFormat(CountFormat("I", n, 'I'));
      var f :- Unpack(codes, data);
      Ok(ForkItem(Tail(f)))
  }

  /** `TraceCacheSimName.deserialize`: a size is required; the name takes what the '<BII' prefix leaves. */
  function DeserializeCacheSimName(data: Bytes, size: Option<int>): Result<seq<Field>>
  {
    if size.None? || size.value == 0 then Fail(TraceEntryError)
    else
      var length := size.value - 9;
      var codes :- ParseFormat(CountFormat("BII", length, 's'));
      var f :- Unpack(codes, data);
      if |f| != Arity(TraceCacheSimName) then Fail(TypeError) else Ok(f)
  }

  /**
   * `TraceCache.deserialize`: a size is required; the name takes what the
   * type byte and the 21-byte parameter and 22-byte entry records leave; the
   * three records are then decoded in turn.
   */
  function DeserializeCache(data: Bytes, size: Option<nat>): Result<Item>
  {
    if size.None? || size.value == 0 then Fail(TraceEntryError)
    else
      var nameLength := size.value - 1 - 21 - 22;
      var codes :- ParseFormat("<B21s" + PyStr.IntToString(nameLength) + "s22s");
      var f :- Unpack(codes, data);
      if |f| < 4 then Fail(StructError)
      else
        var params :- DeserializeFields(TraceCacheSimParams, AsBytes(f[1]));
        var name :- DeserializeCacheSimName(AsBytes(f[2]), Some(nameLength));
        var entry :- DeserializeFields(TraceCacheSimEntry, AsBytes(f[3]));
        Ok(Fixed(TraceCache, [AsNat(f[0])]))
  }

  /** `TraceMemChecker.deserialize`: a size is required; the name takes what the '<QIII' prefix leaves. */
  function DeserializeMemChecker(data: Bytes, size: Option<nat>): Result<Item>
  {
    if size.None? || size.value == 0 then Fail(TraceEntryError)
    else
      var nameLength := size.value - 20;
      var codes :- ParseFormat(CountFormat("QIII", nameLength, 's'));
      var f :- Unpack(codes, data);
      if |f| != Arity(TraceMemChecker) then Fail(TypeError) else Ok(Construct(TraceMemChecker, f))
  }

  /** `cls.deserialize(data, size)` for every class the parser dispatches to. */
  function Deserialize(cls: EntryClass, data: Bytes, size: Option<nat>): Result<Item>
  {
    match cls
    case TraceFork => DeserializeFork(data, size)
    case TraceCache => DeserializeCache(data, size)
    case TraceMemChecker => DeserializeMemChecker(data, size)
    case TraceCacheSimName =>
      var f :- DeserializeCacheSimName(data, if size.Some? then Some(size.value as int) else None);
      Ok(Construct(cls, f))
    case TraceTestCase =>
      if size.None? then Fail(TraceEntryError)
      else
        var tc :- TraceTestCases.TestCaseOf(data);
        Ok(TestCaseItem(tc))
    case _ =>
      var f :- DeserializeFields(cls, data);
      Ok(Construct(cls, f))
  }

  /** `serialize`: pack the item's values with its format. */
  function Serialize(item: Item): Result<Bytes>
  {
    match item
    case ModuleLoadItem(name, path, loadBase, nativeBase, size, addressSpace, pid) =>
      var codes :- ParseFormat(Format(TraceModuleLoad).value);
      Pack(codes, [Bytes(name), Bytes(path)] + Ints([loadBase, nativeBase, size, addressSpace, pid]))
    case Fixed(cls, values) =>
      (match Format(cls)
       case None => Fail(TypeError)
       case Some(fmt) =>
         var codes :- ParseFormat(fmt);
         Pack(codes, Ints(values)))
    case ForkItem(children) => SerializeFork(children)
    case ForkTree(branches) => SerializeFork(seq(|branches|, i requires 0 <= i < |branches| => branches[i].id))
    case TestCaseItem(_) => Fail(NotImplementedError)
  }

  /** `TraceFork.serialize`: the number of children, then each child id, as 32-bit words. */
  function SerializeFork(children: seq<nat>): Result<Bytes>
  {
    var codes :- ParseFormat(CountFormat("I", |children|, 'I'));
    Pack(codes, Ints([|children|] + children))
  }

  /** `TraceModuleUnload.serialize` as written: only the load base is packed into a three-word format. */
  function SerializeModuleUnloadAsWritten(item: Item): Result<Bytes>
    requires item.Fixed? && item.cls == TraceModuleUnload && |item.values| == 3
  {
    var codes :- ParseFormat(Format(TraceModuleUnload).value);
    Pack(codes, [Int(item.values[0])])
  }

  // ---------------------------------------------------------------------
  // Fixed records of integers

  /** A format of '<' then count-free B, I and Q codes only. */
  predicate PlainFormat(fmt: string)
  {
    |fmt| > 0 && fmt[0] == '<' && forall i :: 1 <= i < |fmt| ==> IsPlain(fmt[i])
  }

  /** A class whose entries are a fixed record of unsigned integers, one per constructor argument. */
  predicate Integral(cls: EntryClass)
  {
    Format(cls).Some? && PlainFormat(Format(cls).value) && Arity(cls) == |Format(cls).value| - 1
  }

  function FixedCodes(cls: EntryClass): (r: seq<Code>)
    requires Integral(cls)
    ensures |r| == Arity(cls) && forall i :: 0 <= i < |r| ==> r[i].UInt?
  {
    Plains(Format(cls).value[1..])
  }

  /** The classes whose entries are fixed records of integers. */
  const IntegralClassSet: set<EntryClass> := {
    TraceItemHeader, TraceModuleUnload, TraceProcessUnload, TraceCall, TraceReturn, TraceBranchCoverage,
    TraceCacheSimParams, TraceCacheSimEntry, TraceMemory, TracePageFault, TraceTLBMiss,
    TraceInstructionCount, TraceBlock, TraceException, TraceStateSwitch, TraceOSInfo}

  /** Every class of the set has a plain format with one code per constructor argument. */
  lemma IntegralClass(cls: EntryClass)
    requires cls in IntegralClassSet
    ensures Integral(cls)
  {
    if cls in {TraceItemHeader, TraceModuleUnload, TraceProcessUnload, TraceCall} {
      IntegralA(cls);
    } else if cls in {TraceReturn, TraceBranchCoverage, TraceCacheSimParams, TraceCacheSimEntry} {
      IntegralB(cls);
    } else if cls in {TraceMemory, TracePageFault, TraceTLBMiss, TraceInstructionCount} {
      IntegralC(cls);
    } else {
      IntegralD(cls);
    }
  }

  lemma IntegralA(cls: EntryClass)
    requires cls in {TraceItemHeader, TraceModuleUnload, TraceProcessUnload, TraceCall}
    ensures Integral(cls)
  {
  }

  lemma IntegralB(cls: EntryClass)
    requires cls in {TraceReturn, TraceBranchCoverage, TraceCacheSimParams, TraceCacheSimEntry}
    ensures Integral(cls)
  {
  }

  lemma IntegralC(cls: EntryClass)
    requires cls in {TraceMemory, TracePageFault, TraceTLBMiss, TraceInstructionCount}
    ensures Integral(cls)
  {
  }

  lemma IntegralD(cls: EntryClass)
    requires cls in {TraceBlock, TraceException, TraceStateSwitch, TraceOSInfo}
    ensures Integral(cls)
  {
  }

  /** The classes with a size-dependent or unusual layout are not plain records. */
  lemma NotIntegral(cls: EntryClass)
    requires cls in {TraceModuleLoad, TraceFork, TraceCacheSimName, TraceCache, TraceMemChecker, TraceTestCase, TraceTranslationBlock, TraceTranslationBlock64}
    ensures !Integral(cls)
  {
    var fmt := Format(cls);
    if cls == TraceModuleLoad || cls == TraceTranslationBlock64 {
      assert !IsPlain(fmt.value[1]);
    } else if cls == TraceFork {
      assert !IsPlain(fmt.value[2]);
    } else if cls == TraceCacheSimName {
      assert !IsPlain(fmt.value[4]);
    } else if cls == TraceCache {
      assert !IsPlain(fmt.value[2]);
    } else if cls == TraceMemChecker {
      assert !IsPlain(fmt.value[5]);
    } else if cls == TraceTranslationBlock {
      assert !IsPlain(fmt.value[7]);
    }
  }

  /** A plain format parses to one integer code per character, and `static_size` is their total width. */
  lemma IntegralLayout(cls: EntryClass)
    requires Integral(cls)
    ensures ParseFormat(Format(cls).value) == Ok(FixedCodes(cls))
    ensures StaticSize(cls) == Ok(Size(FixedCodes(cls)))
  {
    var fmt := Format(cls).value;
    var body := fmt[1..];
    assert fmt == "<" + body;
    assert forall i :: 0 <= i < |body| ==> IsPlain(body[i]) by {
      forall i | 0 <= i < |body| ensures IsPlain(body[i])
      {
        assert body[i] == fmt[i + 1];
      }
    }
    PlainLayout(fmt, body);
  }

  /** Every class without a decoder of its own goes through the generic one. */
  lemma GenericDispatch(cls: EntryClass, data: Bytes, size: Option<nat>)
    requires cls !in {TraceFork, TraceCacheSimName, TraceCache, TraceMemChecker, TraceTestCase}
    ensures Deserialize(cls, data, size) ==
      match DeserializeFields(cls, data) case Fail(e) => Fail(e) case Ok(f) => Ok(Construct(cls, f))
  {
  }

  /** The generic decoder goes to the constructor for every plain record class. */
  lemma IntegralDispatch(cls: EntryClass, data: Bytes, size: Option<nat>)
    requires Integral(cls)
    ensures Deserialize(cls, data, size) ==
      match DeserializeFields(cls, data) case Fail(e) => Fail(e) case Ok(f) => Ok(Fixed(cls, Nats(f)))
  {
    if cls in {TraceModuleLoad, TraceFork, TraceCacheSimName, TraceCache, TraceMemChecker, TraceTestCase} {
      NotIntegral(cls);
      assert false;
    }
    GenericDispatch(cls, data, size);
  }

  /** A plain record's fields are read when the data has its exact size, and are all integers. */
  lemma IntegralFields(cls: EntryClass, data: Bytes)
    requires Integral(cls)
    ensures DeserializeFields(cls, data) ==
      if |data| == Size(FixedCodes(cls)) then Ok(UnpackAll(FixedCodes(cls), data)) else Fail(TraceEntryError)
  {
    IntegralLayout(cls);
  }

  /** A plain record serializes by packing its values with its codes. */
  lemma IntegralSerialize(cls: EntryClass, values: seq<nat>)
    requires Integral(cls)
    ensures Serialize(Fixed(cls, values)) == Pack(FixedCodes(cls), Ints(values))
  {
    IntegralLayout(cls);
  }

  /**
   * A plain record decodes exactly from `static_size` bytes; any other
   * length is a TraceEntryError; and serializing what was decoded gives the
   * same bytes back.
   */
  lemma FixedDecode(cls: EntryClass, data: Bytes, size: Option<nat>)
    requires Integral(cls)
    ensures Deserialize(cls, data, size).Ok? <==> Ok(|data|) == StaticSize(cls)
    ensures Deserialize(cls, data, size).Fail? ==> Deserialize(cls, data, size).error == TraceEntryError
    ensures Deserialize(cls, data, size).Ok? ==>
      Deserialize(cls, data, size).value.Fixed? && Deserialize(cls, data, size).value.cls == cls &&
      Serialize(Deserialize(cls, data, size).value) == Ok(data)
  {
    IntegralLayout(cls);
    IntegralDispatch(cls, data, size);
    IntegralFields(cls, data);
    var codes := FixedCodes(cls);
    if |data| == Size(codes) {
      var f := UnpackAll(codes, data);
      UnpackPack(codes, data);
      IntsOfNats(codes, f);
      IntegralSerialize(cls, Nats(f));
    }
  }

  /** Unpacked integers survive the trip through `nat`. */
  lemma IntsOfNats(codes: seq<Code>, f: seq<Field>)
    requires |f| == |codes| && forall i :: 0 <= i < |codes| ==> codes[i].UInt? && Fits(codes[i], f[i])
    ensures Ints(Nats(f)) == f
  {
  }

  /**
   * A plain record serializes exactly when there is one in-range integer per
   * field, into `static_size` bytes that decode back to the same record.
   */
  lemma FixedRoundTrip(cls: EntryClass, values: seq<nat>, size: Option<nat>)
    requires Integral(cls)
    ensures Serialize(Fixed(cls, values)).Ok? <==> InRange(FixedCodes(cls), values)
    ensures Serialize(Fixed(cls, values)).Ok? ==>
      Ok(|Serialize(Fixed(cls, values)).value|) == StaticSize(cls) &&
      Deserialize(cls, Serialize(Fixed(cls, values)).value, size) == Ok(Fixed(cls, values))
  {
    IntegralLayout(cls);
    IntegralSerialize(cls, values);
    var codes := FixedCodes(cls);
    PackInts(codes, values);
    if InRange(codes, values) {
      var data := Pack(codes, Ints(values)).value;
      IntegralDispatch(cls, data, size);
      IntegralFields(cls, data);
      NatsOfInts(values);
    }
  }

  lemma NatsOfInts(values: seq<nat>)
    ensures Nats(Ints(values)) == values
  {
  }

  // ---------------------------------------------------------------------
  // Module loads

  const ModuleLoadCodes: seq<Code> := [Chars(32), Chars(256), UInt(8), UInt(8), UInt(8), UInt(8), UInt(8)]

  /** '<32s256sQQQQQ': a 32-byte name, a 256-byte path and five 64-bit words, 328 bytes in all. */
  lemma ModuleLoadLayout()
    ensures ParseFormat(Format(TraceModuleLoad).value) == Ok(ModuleLoadCodes)
    ensures Size(ModuleLoadCodes) == 328
  {
    ModuleLoadParse(Format(TraceModuleLoad).value, ModuleLoadCodes);
    ModuleLoadSize();
  }

  lemma ModuleLoadSize()
    ensures Size(ModuleLoadCodes) == 328
  {
  }

  lemma ModuleLoadParse(fmt: string, codes: seq<Code>)
    requires fmt == "<32s256sQQQQQ" && codes == ModuleLoadCodes
    ensures ParseFormat(fmt) == Ok(codes)
  {
    var count, rest := fmt[1..3], fmt[4..];
    SplitName(fmt, count, rest);
    Digits32(count);
    FormatStringHead(fmt, count, 32, rest);
    PathAndWords(rest);
    assert [Chars(32)] + codes[1..] == codes;
  }

  lemma SplitName(fmt: string, count: string, rest: string)
    requires fmt == "<32s256sQQQQQ" && count == fmt[1..3] && rest == fmt[4..]
    ensures fmt == "<" + count + ['s'] + rest && count == "32" && rest == "256sQQQQQ"
  {
  }


  lemma Digits32(count: string)
    requires count == "32"
    ensures forall i :: 0 <= i < |count| ==> IsDigit(count[i])
    ensures PyStr.AllDigits(count, 10) && PyStr.DigitsValue(count, 10) == 32
  {
    assert count[..1] == "3" && count[..1][..0] == "";
    assert PyStr.DigitsValue("", 10) == 0;
    assert PyStr.DigitsValue("3", 10) == 3;
    assert PyStr.DigitsValue(count, 10) == 32;
  }

  lemma PathAndWords(s: string)
    requires s == "256sQQQQQ"
    ensures ParseCodes(s) == Ok(ModuleLoadCodes[1..])
  {
    var count, rest := s[..3], s[4..];
    SplitPath(s, count, rest);
    Digits256(count);
    StringStep(count, 256, rest);
    Words(rest);
    assert [Chars(256)] + ModuleLoadCodes[2..] == ModuleLoadCodes[1..];
  }

  lemma SplitPath(s: string, count: string, rest: string)
    requires s == "256sQQQQQ" && count == s[..3] && rest == s[4..]
    ensures s == count + ['s'] + rest && count == "256" && rest == "QQQQQ"
  {
  }

  lemma Digits256(count: string)
    requires count == "256"
    ensures forall i :: 0 <= i < |count| ==> IsDigit(count[i])
    ensures PyStr.AllDigits(count, 10) && PyStr.DigitsValue(count, 10) == 256
  {
    assert count[..2] == "25" && count[..2][..1] == "2" && count[..2][..1][..0] == "";
    assert PyStr.DigitsValue("", 10) == 0;
    assert PyStr.DigitsValue("2", 10) == 2;
    assert PyStr.DigitsValue("25", 10) == 25;
    assert PyStr.DigitsValue(count, 10) == 256;
  }

  lemma Words(s: string)
    requires s == "QQQQQ"
    ensures ParseCodes(s) == Ok(ModuleLoadCodes[2..])
  {
    PlainCodes(s);
    assert Plains(s) == ModuleLoadCodes[2..];
  }

  /** `rstrip('\0')` undoes the NUL padding `pack` adds to a string that does not itself end in NUL. */
  lemma {:induction false} StripPadded(b: Bytes, n: nat)
    requires |b| <= n && (b == [] || b[|b| - 1] != 0)
    ensures StripNuls(PadTo(b, n)) == b
    decreases n
  {
    if n > |b| {
      var p := PadTo(b, n);
      assert p[..n - 1] == PadTo(b, n - 1);
      StripPadded(b, n - 1);
    } else {
      assert PadTo(b, n) == b;
    }
  }

  /**
   * A module load decodes exactly from 328 bytes (else TraceEntryError):
   * the name is the first 32 bytes, the path the next 256, and serializing
   * the entry gives the same bytes back.
   */
  lemma ModuleLoadDecode(data: Bytes, size: Option<nat>)
    ensures Deserialize(TraceModuleLoad, data, size).Ok? <==> |data| == 328
    ensures Deserialize(TraceModuleLoad, data, size).Fail? ==> Deserialize(TraceModuleLoad, data, size).error == TraceEntryError
    ensures Deserialize(TraceModuleLoad, data, size).Ok? ==>
      var item := Deserialize(TraceModuleLoad, data, size).value;
      item.ModuleLoadItem? && item.rawName == data[..32] && item.rawPath == data[32..288] &&
      Serialize(item) == Ok(data)
  {
    ModuleLoadDispatch(data, size);
    if |data| == 328 {
      var f := UnpackAll(ModuleLoadCodes, data);
      ModuleLoadNamePath(data);
      var item := Construct(TraceModuleLoad, f);
      ModuleLoadRepack(data, item);
    }
  }

  /** The generic decoder reads a module load with '<32s256sQQQQQ' and builds the entry from the seven values. */
  lemma ModuleLoadDispatch(data: Bytes, size: Option<nat>)
    ensures Deserialize(TraceModuleLoad, data, size) ==
      if |data| == 328 then Ok(Construct(TraceModuleLoad, UnpackAll(ModuleLoadCodes, data))) else Fail(TraceEntryError)
  {
    ModuleLoadFields(data);
    GenericDispatch(TraceModuleLoad, data, size);
  }

  lemma ModuleLoadFields(data: Bytes)
    ensures DeserializeFields(TraceModuleLoad, data) ==
      if |data| == 328 then Ok(UnpackAll(ModuleLoadCodes, data)) else Fail(TraceEntryError)
  {
    ModuleLoadLayout();
  }

  lemma ModuleLoadSerialize(item: Item)
    requires item.ModuleLoadItem?
    ensures Serialize(item) == Pack(ModuleLoadCodes, [Bytes(item.rawName), Bytes(item.rawPath)] +
      Ints([item.loadBase, item.nativeBase, item.size, item.addressSpace, item.pid]))
  {
    ModuleLoadLayout();
  }

  lemma ModuleLoadNamePath(data: Bytes)
    requires |data| == 328
    ensures Size(ModuleLoadCodes) == 328
    ensures UnpackAll(ModuleLoadCodes, data)[0] == Bytes(data[..32])
    ensures UnpackAll(ModuleLoadCodes, data)[1] == Bytes(data[32..288])
  {
    ModuleLoadLayout();
    NamePath(ModuleLoadCodes, data);
  }

  lemma NamePath(codes: seq<Code>, data: Bytes)
    requires |codes| == 7 && codes[0] == Chars(32) && codes[1] == Chars(256)
    requires |data| == 328 == Size(codes)
    ensures UnpackAll(codes, data)[0] == Bytes(data[..32])
    ensures UnpackAll(codes, data)[1] == Bytes(data[32..288])
  {
    assert codes[..0] == [] && data[0..32] == data[..32];
    UnpackAllAt(codes, data, 0, 0, 32);
    assert codes[..1] == [Chars(32)];
    assert Size(codes[..1]) == 32;
    UnpackAllAt(codes, data, 1, 32, 288);
  }

  lemma ModuleLoadRepack(data: Bytes, item: Item)
    requires |data| == 328
    ensures Size(ModuleLoadCodes) == 328
    requires item == Construct(TraceModuleLoad, UnpackAll(ModuleLoadCodes, data))
    ensures Serialize(item) == Ok(data)
  {
    ModuleLoadLayout();
    ModuleLoadSerialize(item);
    ModuleLoadShape(ModuleLoadCodes);
    RepackShaped(ModuleLoadCodes, data, item);
  }

  /** The module-load codes: two strings, then five integers. */
  lemma ModuleLoadShape(codes: seq<Code>)
    requires codes == ModuleLoadCodes
    ensures |codes| == 7 && codes[0] == Chars(32) && codes[1] == Chars(256) && forall i :: 2 <= i < 7 ==> codes[i].UInt?
  {
  }

  lemma RepackShaped(codes: seq<Code>, data: Bytes, item: Item)
    requires |codes| == 7 && codes[0].Chars? && codes[1].Chars? && forall i :: 2 <= i < 7 ==> codes[i].UInt?
    requires |data| == Size(codes) && item == Construct(TraceModuleLoad, UnpackAll(codes, data))
    requires item.ModuleLoadItem?
    requires Serialize(item) == Pack(codes, [Bytes(item.rawName), Bytes(item.rawPath)] +
      Ints([item.loadBase, item.nativeBase, item.size, item.addressSpace, item.pid]))
    ensures Serialize(item) == Ok(data)
  {
    var f := UnpackAll(codes, data);
    UnpackPack(codes, data);
    ModuleLoadValues(codes, f);
  }

  /** Unpacked module-load values are two byte strings and five non-negative integers. */
  lemma ModuleLoadValues(codes: seq<Code>, f: seq<Field>)
    requires |codes| == 7 && codes[0].Chars? && codes[1].Chars? && forall i :: 2 <= i < 7 ==> codes[i].UInt?
    requires |f| == 7 && forall i :: 0 <= i < 7 ==> Fits(codes[i], f[i])
    ensures [Bytes(AsBytes(f[0])), Bytes(AsBytes(f[1]))] + Ints([AsNat(f[2]), AsNat(f[3]), AsNat(f[4]), AsNat(f[5]), AsNat(f[6])]) == f
  {
  }

  /**
   * A module load serializes exactly when its five integers fit 64 bits;
   * decoding the 328 bytes gives the name and path NUL-padded (or cut) to
   * 32 and 256 bytes and the integers unchanged, so a name and path that
   * fit and do not end in NUL read back unchanged through `name` and `path`.
   */
  lemma ModuleLoadRoundTrip(item: Item, size: Option<nat>)
    requires item.ModuleLoadItem?
    ensures Serialize(item).Ok? <==> InRange(ModuleLoadCodes[2..], [item.loadBase, item.nativeBase, item.size, item.addressSpace, item.pid])
    ensures Serialize(item).Ok? ==>
      |Serialize(item).value| == 328 &&
      Deserialize(TraceModuleLoad, Serialize(item).value, size) ==
        Ok(item.(rawName := PadTo(item.rawName, 32), rawPath := PadTo(item.rawPath, 256)))
    ensures Serialize(item).Ok? && |item.rawName| <= 32 && (item.rawName == [] || item.rawName[|item.rawName| - 1] != 0) ==>
      Name(Deserialize(TraceModuleLoad, Serialize(item).value, size).value) == item.rawName
    ensures Serialize(item).Ok? && |item.rawPath| <= 256 && (item.rawPath == [] || item.rawPath[|item.rawPath| - 1] != 0) ==>
      Path(Deserialize(TraceModuleLoad, Serialize(item).value, size).value) == item.rawPath
  {
    ModuleLoadReads(item, size);
    if Serialize(item).Ok? {
      var read := Deserialize(TraceModuleLoad, Serialize(item).value, size).value;
      PaddedNames(item, read);
    }
  }

  lemma ModuleLoadReads(item: Item, size: Option<nat>)
    requires item.ModuleLoadItem?
    ensures Serialize(item).Ok? <==> InRange(ModuleLoadCodes[2..], [item.loadBase, item.nativeBase, item.size, item.addressSpace, item.pid])
    ensures Serialize(item).Ok? ==>
      |Serialize(item).value| == 328 &&
      Deserialize(TraceModuleLoad, Serialize(item).value, size) ==
        Ok(item.(rawName := PadTo(item.rawName, 32), rawPath := PadTo(item.rawPath, 256)))
  {
    ModuleLoadLayout();
    ModuleLoadSerialize(item);
    ModuleLoadShape(ModuleLoadCodes);
    ModuleLoadPacked(ModuleLoadCodes, item);
    if Serialize(item).Ok? {
      ModuleLoadDispatch(Serialize(item).value, size);
    }
  }

  /** A name and path that fit and do not end in NUL come back unchanged from their padded copies. */
  lemma PaddedNames(item: Item, read: Item)
    requires item.ModuleLoadItem?
    requires read == item.(rawName := PadTo(item.rawName, 32), rawPath := PadTo(item.rawPath, 256))
    ensures |item.rawName| <= 32 && (item.rawName == [] || item.rawName[|item.rawName| - 1] != 0) ==> Name(read) == item.rawName
    ensures |item.rawPath| <= 256 && (item.rawPath == [] || item.rawPath[|item.rawPath| - 1] != 0) ==> Path(read) == item.rawPath
  {
    if |item.rawName| <= 32 && (item.rawName == [] || item.rawName[|item.rawName| - 1] != 0) {
      StripPadded(item.rawName, 32);
    }
    if |item.rawPath| <= 256 && (item.rawPath == [] || item.rawPath[|item.rawPath| - 1] != 0) {
      StripPadded(item.rawPath, 256);
    }
  }

  lemma {:induction false} ModuleLoadPacked(codes: seq<Code>, item: Item)
    requires |codes| == 7 && codes[0] == Chars(32) && codes[1] == Chars(256) && forall i :: 2 <= i < 7 ==> codes[i].UInt?
    requires item.ModuleLoadItem?
    ensures var p := Pack(codes, [Bytes(item.rawName), Bytes(item.rawPath)] +
        Ints([item.loadBase, item.nativeBase, item.size, item.addressSpace, item.pid]));
      (p.Ok? <==> InRange(codes[2..], [item.loadBase, item.nativeBase, item.size, item.addressSpace, item.pid])) &&
      (p.Ok? ==> (|p.value| == Size(codes) &&
        Construct(TraceModuleLoad, UnpackAll(codes, p.value)) == item.(rawName := PadTo(item.rawName, 32), rawPath := PadTo(item.rawPath, 256))))
  {
    var ints := [item.loadBase, item.nativeBase, item.size, item.addressSpace, item.pid];
    var fields := [Bytes(item.rawName), Bytes(item.rawPath)] + Ints(ints);
    PackUnpack(codes, fields);
    var normal := ModuleLoadNormal(codes, item.rawName, item.rawPath, ints);
  }

  /** What `pack` accepts for a module load, and what unpacking the result gives. */
  lemma ModuleLoadNormal(codes: seq<Code>, name: Bytes, path: Bytes, ints: seq<nat>) returns (normal: seq<Field>)
    requires |codes| == 7 && codes[0] == Chars(32) && codes[1] == Chars(256) && forall i :: 2 <= i < 7 ==> codes[i].UInt?
    requires |ints| == 5
    ensures var fields := [Bytes(name), Bytes(path)] + Ints(ints);
      (AllFit(codes, fields) <==> InRange(codes[2..], ints)) &&
      normal == NormalAll(codes, fields) &&
      Construct(TraceModuleLoad, normal) ==
        ModuleLoadItem(PadTo(name, 32), PadTo(path, 256), ints[0], ints[1], ints[2], ints[3], ints[4])
  {
    var fields := [Bytes(name), Bytes(path)] + Ints(ints);
    assert forall i :: 2 <= i < 7 ==> codes[i] == codes[2..][i - 2] && fields[i] == Int(ints[i - 2]);
    normal := NormalAll(codes, fields);
  }

  // ---------------------------------------------------------------------
  // Forks

  /** '<I%dI' with a count: a count word and `n` child words; a negative count is a `struct.error`. */
  lemma ForkFormat(n: int)
    ensures ParseFormat(CountFormat("I", n, 'I')) ==
      if n < 0 then Fail(StructError) else Ok([UInt(4)] + Repeat(UInt(4), n))
  {
    CountedFormat("I", n, 'I');
    assert Plains("I") == [UInt(4)];
  }

  lemma ForkSize(n: nat)
    ensures Size([UInt(4)] + Repeat(UInt(4), n)) == 4 + 4 * n
  {
    SizeRepeat(UInt(4), n);
  }

  /**
   * `TraceFork.deserialize` needs a non-zero size (else TraceEntryError);
   * a size below 4 gives a negative count, a `struct.error`; otherwise the
   * data must hold exactly the count word and (size - 4) / 4 child ids, and
   * serializing the decoded fork rewrites only the count word.
   */
  lemma ForkDecode(data: Bytes, size: Option<nat>)
    ensures size.None? || size.value == 0 ==> DeserializeFork(data, size) == Fail(TraceEntryError)
    ensures size.Some? && 0 < size.value < 4 ==> DeserializeFork(data, size) == Fail(StructError)
    ensures size.Some? && size.value >= 4 ==>
      var n := (size.value - 4) / 4;
      var r := DeserializeFork(data, size);
      (r.Ok? <==> |data| == 4 + 4 * n) && (r.Fail? ==> r.error == StructError) &&
      (r.Ok? ==> r.value.ForkItem? && |r.value.children| == n) &&
      (r.Ok? && n < 0x1_0000_0000 ==> SerializeFork(r.value.children) == Ok(LE(n, 4) + data[4..]))
  {
    if size.Some? && size.value != 0 {
      var n := (size.value - 4) / 4;
      ForkFormat(n);
      if n >= 0 {
        var codes := [UInt(4)] + Repeat(UInt(4), n);
        ForkSize(n);
        if |data| == 4 + 4 * n {
          var f := UnpackAll(codes, data);
          UnpackPack(codes, data);
          IntsOfNats(codes[1..], f[1..]);
          if n < 0x1_0000_0000 {
            assert Pow256(4) == 0x1_0000_0000;
            ForkRepack(codes, f, data, n);
          }
        }
      }
    }
  }

  lemma ForkRepack(codes: seq<Code>, f: seq<Field>, data: Bytes, n: nat)
    requires codes == [UInt(4)] + Repeat(UInt(4), n) && n < Pow256(4)
    requires Pack(codes, f) == Ok(data)
    requires Ints(Nats(f[1..])) == f[1..]
    ensures |data| >= 4 && SerializeFork(Tail(f)) == Ok(LE(n, 4) + data[4..])
  {
    PackRest(codes, f, data);
    var t := Tail(f);
    assert |t| == n;
    SerializeForkPack(t);
    IntsCons(n, t);
    var g := [Int(n)] + f[1..];
    assert g[1..] == f[1..];
    assert Width(codes[0]) == 4;
    PackHead(codes, g, data[4..]);
    assert PackOne(codes[0], g[0]) == LE(n, 4);
  }

  lemma IntsCons(n: nat, values: seq<nat>)
    ensures Ints([n] + values) == [Int(n)] + Ints(values)
  {
  }

  /** `TraceFork.serialize` packs the count and the children with '<I%dI'. */
  lemma SerializeForkPack(children: seq<nat>)
    ensures SerializeFork(children) == Pack([UInt(4)] + Repeat(UInt(4), |children|), Ints([|children|] + children))
  {
    ForkFormat(|children|);
  }

  /**
   * A fork serializes exactly when it has fewer than 2^32 children, each id
   * below 2^32, into 4 bytes per child plus the count word, and decoding
   * those bytes with that size gives the same children back.
   */
  lemma ForkRoundTrip(children: seq<nat>)
    ensures SerializeFork(children).Ok? <==> |children| < 0x1_0000_0000 && forall i :: 0 <= i < |children| ==> children[i] < 0x1_0000_0000
    ensures SerializeFork(children).Ok? ==>
      |SerializeFork(children).value| == 4 + 4 * |children| &&
      DeserializeFork(SerializeFork(children).value, Some(4 + 4 * |children|)) == Ok(ForkItem(children))
  {
    var codes := [UInt(4)] + Repeat(UInt(4), |children|);
    ForkPacked(children, codes);
    if SerializeFork(children).Ok? {
      ForkReadBack(children, codes, SerializeFork(children).value);
    }
  }

  lemma ForkPacked(children: seq<nat>, codes: seq<Code>)
    requires codes == [UInt(4)] + Repeat(UInt(4), |children|)
    ensures SerializeFork(children) == Pack(codes, Ints([|children|] + children))
    ensures SerializeFork(children).Ok? <==> |children| < 0x1_0000_0000 && forall i :: 0 <= i < |children| ==> children[i] < 0x1_0000_0000
    ensures SerializeFork(children).Ok? ==>
      |SerializeFork(children).value| == 4 + 4 * |children| &&
      Unpack(codes, SerializeFork(children).value) == Ok(Ints([|children|] + children))
  {
    SerializeForkPack(children);
    ForkSize(|children|);
    PackInts(codes, [|children|] + children);
    ForkInRange(codes, children);
  }

  lemma ForkReadBack(children: seq<nat>, codes: seq<Code>, data: Bytes)
    requires codes == [UInt(4)] + Repeat(UInt(4), |children|)
    requires |data| == 4 + 4 * |children| && Unpack(codes, data) == Ok(Ints([|children|] + children))
    ensures DeserializeFork(data, Some(4 + 4 * |children|)) == Ok(ForkItem(children))
  {
    var n := |children|;
    ForkFormat(n);
    assert (4 + 4 * n - 4) / 4 == n;
    ForkUnpacked(data, 4 + 4 * n, codes, Ints([n] + children));
    ForkTail(children);
  }

  lemma ForkInRange(codes: seq<Code>, children: seq<nat>)
    requires codes == [UInt(4)] + Repeat(UInt(4), |children|)
    ensures InRange(codes, [|children|] + children) <==>
      |children| < 0x1_0000_0000 && forall i :: 0 <= i < |children| ==> children[i] < 0x1_0000_0000
  {
    assert forall i :: 0 <= i < |codes| ==> codes[i] == UInt(4);
    InRangeUniform(codes, [|children|] + children, 4);
    CountBelow(children, Pow256(4));
  }

  /** A count followed by the counted values are all below `bound` exactly when the count and each value are. */
  lemma CountBelow(children: seq<nat>, bound: nat)
    ensures (forall i :: 0 <= i < |[|children|] + children| ==> ([|children|] + children)[i] < bound) <==>
      |children| < bound && forall i :: 0 <= i < |children| ==> children[i] < bound
  {
    var values := [|children|] + children;
    assert values[0] == |children|;
    if |children| < bound && forall i :: 0 <= i < |children| ==> children[i] < bound {
      forall i | 0 <= i < |values| ensures values[i] < bound {
        if i > 0 { assert values[i] == children[i - 1]; }
      }
    }
    if forall i :: 0 <= i < |values| ==> values[i] < bound {
      forall i | 0 <= i < |children| ensures children[i] < bound {
        assert values[i + 1] == children[i];
      }
    }
  }

  lemma ForkTail(children: seq<nat>)
    ensures Tail(Ints([|children|] + children)) == children
  {
    assert Ints([|children|] + children)[1..] == Ints(children);
    NatsOfInts(children);
  }


  lemma ForkUnpacked(data: Bytes, size: nat, codes: seq<Code>, fields: seq<Field>)
    requires size > 0 && ParseFormat(CountFormat("I", (size - 4) / 4, 'I')) == Ok(codes)
    requires Unpack(codes, data) == Ok(fields)
    ensures DeserializeFork(data, Some(size)) == Ok(ForkItem(Tail(fields)))
  {
  }

  // ---------------------------------------------------------------------
  // Entries that never decode

  /** '<BII%ds' with a length: a byte, two words and the name; a negative length is a `struct.error`. */
  lemma CacheSimNameFormat(length: int)
    ensures ParseFormat(CountFormat("BII", length, 's')) ==
      if length < 0 then Fail(StructError) else Ok([UInt(1), UInt(4), UInt(4), Chars(length)])
  {
    CountedFormat("BII", length, 's');
    if length >= 0 {
      assert CodesFor('s', length) == Ok([Chars(length)]);
      assert Plains("BII") + [Chars(length)] == [UInt(1), UInt(4), UInt(4), Chars(length)];
    }
  }

  /**
   * `TraceCacheSimName.deserialize` never succeeds: without a size it is a
   * TraceEntryError; a size below 9 or data of another length is a
   * `struct.error`; otherwise the four unpacked values are one more than
   * the constructor's three parameters, a TypeError.
   */
  lemma CacheSimNameNeverDecodes(data: Bytes, size: Option<int>)
    ensures DeserializeCacheSimName(data, size) ==
      if size.None? || size.value == 0 then Fail(TraceEntryError)
      else if size.value < 9 || |data| != size.value then Fail(StructError)
      else Fail(TypeError)
  {
    if size.Some? && size.value != 0 {
      var length := size.value - 9;
      CacheSimNameFormat(length);
      if length >= 0 {
        var codes := [UInt(1), UInt(4), UInt(4), Chars(length)];
        assert codes == [UInt(1), UInt(4), UInt(4)] + [Chars(length)];
        SizeAppend([UInt(1), UInt(4), UInt(4)], [Chars(length)]);
        assert Size([Chars(length)]) == length;
        if |data| == size.value {
          assert |UnpackAll(codes, data)| == 4;
        }
      }
    }
  }

  /**
   * `TraceCache.deserialize` never succeeds, because the name record it
   * contains never does; without a size it is a TraceEntryError.
   */
  lemma CacheNeverDecodes(data: Bytes, size: Option<nat>)
    ensures Deserialize(TraceCache, data, size).Fail?
    ensures size.None? || size.value == 0 ==> Deserialize(TraceCache, data, size) == Fail(TraceEntryError)
  {
    if size.Some? && size.value != 0 {
      var nameLength := size.value - 1 - 21 - 22;
      var r := DeserializeCache(data, size);
      if r.Ok? {
        var codes := ParseFormat("<B21s" + PyStr.IntToString(nameLength) + "s22s").value;
        var f := Unpack(codes, data).value;
        CacheSimNameNeverDecodes(AsBytes(f[2]), Some(nameLength));
        assert false;
      }
    }
  }

  /** '<QIII%ds' with a length: a 64-bit word, three 32-bit words and the name. */
  lemma MemCheckerFormat(length: int)
    ensures ParseFormat(CountFormat("QIII", length, 's')) ==
      if length < 0 then Fail(StructError) else Ok([UInt(8), UInt(4), UInt(4), UInt(4), Chars(length)])
  {
    CountedFormat("QIII", length, 's');
    if length >= 0 {
      assert CodesFor('s', length) == Ok([Chars(length)]);
      assert Plains("QIII") + [Chars(length)] == [UInt(8), UInt(4), UInt(4), UInt(4), Chars(length)];
    }
  }

  /**
   * `TraceMemChecker.deserialize` never succeeds: without a size it is a
   * TraceEntryError; a size below 20 or data of another length is a
   * `struct.error`; otherwise the five unpacked values are one more than the
   * constructor's four parameters, a TypeError.
   */
  lemma MemCheckerNeverDecodes(data: Bytes, size: Option<nat>)
    ensures Deserialize(TraceMemChecker, data, size) ==
      if size.None? || size.value == 0 then Fail(TraceEntryError)
      else if size.value < 20 || |data| != size.value then Fail(StructError)
      else Fail(TypeError)
  {
    if size.Some? && size.value != 0 {
      var length := size.value - 20;
      MemCheckerFormat(length);
      if length >= 0 {
        var codes := [UInt(8), UInt(4), UInt(4), UInt(4), Chars(length)];
        assert codes == [UInt(8), UInt(4), UInt(4), UInt(4)] + [Chars(length)];
        SizeAppend([UInt(8), UInt(4), UInt(4), UInt(4)], [Chars(length)]);
        assert Size([Chars(length)]) == length;
        if |data| == size.value {
          assert |UnpackAll(codes, data)| == 5;
        }
      }
    }
  }

  /** '<QQIBBB8Q': fourteen integers in 87 bytes. */
  lemma TranslationBlockLayout() returns (codes: seq<Code>)
    ensures ParseFormat(Format(TraceTranslationBlock).value) == Ok(codes)
    ensures |codes| == 14 && Size(codes) == 87
  {
    codes := TranslationBlockParse(Format(TraceTranslationBlock).value, "QQIBBB", "8");
  }

  lemma TranslationBlockParse(fmt: string, prefix: string, count: string) returns (codes: seq<Code>)
    requires prefix == "QQIBBB" && count == "8" && fmt == "<" + prefix + count + ['Q']
    ensures ParseFormat(fmt) == Ok(codes) && |codes| == 14 && Size(codes) == 87
  {
    CountedTail(prefix, count, 'Q');
    assert PyStr.DigitsValue(count, 10) == 8 by {
      assert count[..0] == "";
    }
    codes := Plains(prefix) + Repeat(UInt(8), 8);
    SizeAppend(Plains(prefix), Repeat(UInt(8), 8));
    SizeRepeat(UInt(8), 8);
    assert Plains(prefix) == [UInt(8), UInt(8), UInt(4), UInt(1), UInt(1), UInt(1)];
    assert Size([UInt(8), UInt(8), UInt(4), UInt(1), UInt(1), UInt(1)]) == 23;
  }

  /**
   * `TraceTranslationBlock` never decodes: its format yields fourteen
   * values for a constructor of seven parameters, so data of the format's
   * 87 bytes is a TypeError and data of any other length a TraceEntryError.
   */
  lemma TranslationBlockNeverDecodes(data: Bytes, size: Option<nat>)
    ensures Deserialize(TraceTranslationBlock, data, size) ==
      if |data| == 87 then Fail(TypeError) else Fail(TraceEntryError)
  {
    var codes := TranslationBlockLayout();
    TranslationBlockFields(TraceTranslationBlock, data, codes);
    GenericDispatch(TraceTranslationBlock, data, size);
  }

  lemma TranslationBlockFields(cls: EntryClass, data: Bytes, codes: seq<Code>)
    requires cls == TraceTranslationBlock
    requires ParseFormat(Format(cls).value) == Ok(codes)
    requires |codes| == 14 && Size(codes) == 87
    ensures DeserializeFields(cls, data) == if |data| == 87 then Fail(TypeError) else Fail(TraceEntryError)
  {
  }

  /** `TraceTranslationBlock64`'s format starts with 'S', which is no code: decoding and `static_size` are TraceEntryErrors. */
  lemma TranslationBlock64NeverDecodes(data: Bytes, size: Option<nat>)
    ensures Deserialize(TraceTranslationBlock64, data, size) == Fail(TraceEntryError)
    ensures StaticSize(TraceTranslationBlock64) == Fail(TraceEntryError)
  {
    var fmt := Format(TraceTranslationBlock64).value;
    var body := fmt[1..];
    assert LeadingDigits(body) == 0;
    assert CodesFor(body[0], 1) == Fail(StructError);
    GenericDispatch(TraceTranslationBlock64, data, size);
  }

  // ---------------------------------------------------------------------
  // Module unloads

  /**
   * As written, serializing a module unload packs only the load base into
   * the three-word format, which `pack` rejects for every entry.
   */
  lemma ModuleUnloadSerializeAsWrittenFails(item: Item)
    requires item.Fixed? && item.cls == TraceModuleUnload && |item.values| == 3
    ensures SerializeModuleUnloadAsWritten(item) == Fail(StructError)
  {
    IntegralClass(TraceModuleUnload);
    IntegralLayout(TraceModuleUnload);
  }

  /**
   * Packing all three fields, as the class's format and constructor intend,
   * succeeds for in-range values and decodes back to the same entry.
   */
  lemma ModuleUnloadRoundTrip(values: seq<nat>, size: Option<nat>)
    requires |values| == 3 && forall i :: 0 <= i < 3 ==> values[i] < 0x1_0000_0000_0000_0000
    ensures Serialize(Fixed(TraceModuleUnload, values)).Ok?
    ensures |Serialize(Fixed(TraceModuleUnload, values)).value| == 24
    ensures Deserialize(TraceModuleUnload, Serialize(Fixed(TraceModuleUnload, values)).value, size) == Ok(Fixed(TraceModuleUnload, values))
  {
    IntegralClass(TraceModuleUnload);
    IntegralLayout(TraceModuleUnload);
    var codes := FixedCodes(TraceModuleUnload);
    assert codes == [UInt(8), UInt(8), UInt(8)];
    assert Pow256(8) == 0x1_0000_0000_0000_0000;
    assert InRange(codes, values);
    FixedRoundTrip(TraceModuleUnload, values, size);
  }
}
