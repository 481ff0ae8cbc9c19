// server/cgc_interface.py: the server plugin that receives the JSON messages
// of the CGC interface plugin of S2E, rewrites their file names to absolute
// paths, counts crashes and proofs of vulnerability (POVs), and hands
// coverage files and statistics to the collector threads.
module CgcInterface {
  import opened Wrappers
  import PosixPath
  import ServerCoverage

  /** A value of a JSON message: a string, an integer, null, or anything else (list, object, ...). */
  datatype Value = Str(s: string) | Int(i: int) | Null | Other

  /** A message: a JSON object. */
  type Message = map<string, Value>

  /** `data.get(k, None)`: a missing key reads as null. */
  function Get(data: Message, k: string): Value
  {
    if k in data then data[k] else Null
  }

  /** The keys of a message that hold file names relative to the S2E output folder. */
  const PathKeys: seq<string> := [
    "constraints_filename", "xml_testcase_filename",
    "c_testcase_filename", "coverage_filename",
    "tbcoverage_filename", "callsites_filename"
  ]

  predicate DistinctKeys(keys: seq<string>)
  {
    forall i, j :: 0 <= i < j < |keys| ==> keys[i] != keys[j]
  }

  /** Values `os.path.join` accepts here: a string, or null, which is skipped. */
  predicate Joinable(v: Value)
  {
    v.Str? || v.Null?
  }

  // ---------------------------------------------------------------------
  // translate_paths

  /**
   * One key of `translate_paths`: a null or missing value is left alone, a
   * string is joined to the output folder, and anything else makes
   * `os.path.join` raise (it calls `startswith` on the value).
   */
  function TranslateKey(outputPath: string, data: Message, k: string): (r: Result<Message>)
  {
    var original := Get(data, k);
    if original.Null? then Ok(data)
    else if original.Str? then Ok(data[k := Str(PosixPath.Join2(outputPath, original.s))])
    else Fail(AttributeError)
  }

  /** The keys translated one after the other, as the loop does. */
  function TranslateAll(outputPath: string, data: Message, keys: seq<string>): Result<Message>
    decreases |keys|
  {
    if keys == [] then Ok(data)
    else
      var next :- TranslateKey(outputPath, data, keys[0]);
      TranslateAll(outputPath, next, keys[1..])
  }

  /** What a single value becomes: joined to the output folder when its key is listed and it is a string. */
  function Translated(outputPath: string, listed: bool, v: Value): Value
  {
    if listed && v.Str? then Str(PosixPath.Join2(outputPath, v.s)) else v
  }

  /**
   * For distinct keys, translating succeeds exactly when every listed key is
   * missing or holds a string or null; then the keys of the message are
   * unchanged, every listed string becomes the output folder joined with it,
   * and every other value stays as it was.
   */
  lemma {:induction false} TranslateAllSpec(outputPath: string, data: Message, keys: seq<string>)
    requires DistinctKeys(keys)
    ensures var r := TranslateAll(outputPath, data, keys);
      (r.Ok? <==> forall i :: 0 <= i < |keys| ==> Joinable(Get(data, keys[i]))) &&
      (r.Ok? ==> r.value.Keys == data.Keys) &&
      (r.Ok? ==> forall k :: k in data ==> r.value[k] == Translated(outputPath, k in keys, data[k]))
    ensures TranslateAll(outputPath, data, keys).Fail? ==> TranslateAll(outputPath, data, keys).error == AttributeError
    decreases |keys|
  {
    if keys != [] {
      var rest := keys[1..];
      assert DistinctKeys(rest) by {
        forall i, j | 0 <= i < j < |rest|
          ensures rest[i] != rest[j]
        {
          assert rest[i] == keys[i + 1] && rest[j] == keys[j + 1];
        }
      }
      var first := TranslateKey(outputPath, data, keys[0]);
      if first.Ok? {
        var next := first.value;
        TranslateAllSpec(outputPath, next, rest);
        assert forall i :: 0 <= i < |rest| ==> Get(next, rest[i]) == Get(data, rest[i]) by {
          forall i | 0 <= i < |rest|
            ensures Get(next, rest[i]) == Get(data, rest[i])
          {
            assert rest[i] == keys[i + 1] && keys[i + 1] != keys[0];
          }
        }
        assert forall i :: 0 <= i < |keys| ==> Get(data, keys[i]) == if i == 0 then Get(data, keys[0]) else Get(data, rest[i - 1]);
        forall k | k in rest
          ensures k != keys[0]
        {
          var i :| 0 <= i < |rest| && rest[i] == k;
          assert keys[i + 1] == k;
        }
        forall k | k in keys
          ensures k == keys[0] || k in rest
        {
          var i :| 0 <= i < |keys| && keys[i] == k;
          if i > 0 {
            assert rest[i - 1] == k;
          }
        }
      }
    }
  }

  /** The absolute paths `translate_paths` writes into a message. */
  lemma TranslatePathsSpec(outputPath: string, data: Message)
    ensures var r := TranslateAll(outputPath, data, PathKeys);
      (r.Ok? <==> forall i :: 0 <= i < |PathKeys| ==> Joinable(Get(data, PathKeys[i]))) &&
      (r.Ok? ==> r.value.Keys == data.Keys) &&
      (r.Ok? ==> forall k :: k in data ==> r.value[k] == Translated(outputPath, k in PathKeys, data[k]))
  {
    assert DistinctKeys(PathKeys);
    TranslateAllSpec(outputPath, data, PathKeys);
  }

  /** The loop of `translate_paths` over the given keys. */
  method TranslateKeys(outputPath: string, data: Message, keys: seq<string>) returns (r: Result<Message>)
    ensures r == TranslateAll(outputPath, data, keys)
  {
    var d := data;
    for i := 0 to |keys|
      invariant TranslateAll(outputPath, data, keys) == TranslateAll(outputPath, d, keys[i..])
    {
      assert keys[i..][1..] == keys[i + 1..];
      var k := keys[i];
      var original := Get(d, k);
      if original.Null? {
        continue;
      }
      if !original.Str? {
        return Fail(AttributeError);
      }
      d := d[k := Str(PosixPath.Join2(outputPath, original.s))];
    }
    r := Ok(d);
  }

  /** `translate_paths`: the listed file names made absolute. */
  method TranslatePaths(outputPath: string, data: Message) returns (r: Result<Message>)
    ensures r == TranslateAll(outputPath, data, PathKeys)
  {
    r := TranslateKeys(outputPath, data, PathKeys);
  }

  // ---------------------------------------------------------------------
  // The plugin

  /** A coverage file handed to the coverage collector, with its kind. */
  datatype CoverageRequest = CoverageRequest(file: Value, coverageType: int)

  /** The counters of the plugin and the work it has handed to the collector threads. */
  datatype PluginState = PluginState(
    crashCount: nat, pov1Count: nat, pov2Count: nat,
    coverageQueue: seq<CoverageRequest>, statsQueue: seq<Message>)

  /** The counters after a test case message. */
  function CountTestcase(s: PluginState, data: Message): PluginState
  {
    var testcaseType := Get(data, "testcase_type");
    if testcaseType == Str("pov") then
      var povType := Get(data, "pov_type");
      if povType == Int(1) then s.(pov1Count := s.pov1Count + 1)
      else if povType == Int(2) then s.(pov2Count := s.pov2Count + 1)
      else s
    else if testcaseType == Str("crash") then s.(crashCount := s.crashCount + 1)
    else s
  }

  /** `handle_testcase`: the counters, then the BB and the TB coverage files, each if present. */
  function HandleTestcaseOf(s: PluginState, data: Message): PluginState
  {
    var counted := CountTestcase(s, data);
    var bb := Get(data, "coverage_filename");
    var tb := Get(data, "tbcoverage_filename");
    var bbQueued := if bb.Null? then [] else [CoverageRequest(bb, ServerCoverage.BbCoverage)];
    var tbQueued := if tb.Null? then [] else [CoverageRequest(tb, ServerCoverage.TbCoverage)];
    counted.(coverageQueue := counted.coverageQueue + bbQueued + tbQueued)
  }

  /** The types of message the plugin accepts. */
  predicate Accepted(dataType: Value)
  {
    dataType in {Str("db_error"), Str("testcase"), Str("recipe"), Str("stats")}
  }

  /** `process`: the new state and whether an exception escapes. */
  function Step(s: PluginState, data: Message, outputPath: string): (PluginState, Outcome)
  {
    var dataType := Get(data, "type");
    if !Accepted(dataType) || dataType == Str("db_error") then (s, Pass)
    else
      match TranslateAll(outputPath, data, PathKeys)
      case Fail(e) => (s, Raise(e))
      case Ok(translated) =>
        if dataType == Str("stats") then (s.(statsQueue := s.statsQueue + [translated]), Pass)
        else if dataType == Str("testcase") then (HandleTestcaseOf(s, translated), Pass)
        else (s, Pass)
  }

  /** Messages of an unknown type and database errors change nothing. */
  lemma IgnoredMessages(s: PluginState, data: Message, outputPath: string)
    requires Get(data, "type") !in {Str("testcase"), Str("recipe"), Str("stats")}
    ensures Step(s, data, outputPath) == (s, Pass)
  {
  }

  /**
   * A stats message with translatable paths is queued, with its paths made
   * absolute, and returns before any test case handling: no counter and no
   * coverage request changes.
   */
  lemma StatsOnlyQueued(s: PluginState, data: Message, outputPath: string)
    requires Get(data, "type") == Str("stats")
    requires forall i :: 0 <= i < |PathKeys| ==> Joinable(Get(data, PathKeys[i]))
    ensures var (t, outcome) := Step(s, data, outputPath);
      outcome == Pass &&
      t.crashCount == s.crashCount && t.pov1Count == s.pov1Count && t.pov2Count == s.pov2Count &&
      t.coverageQueue == s.coverageQueue &&
      |t.statsQueue| == |s.statsQueue| + 1 && t.statsQueue[..|s.statsQueue|] == s.statsQueue &&
      t.statsQueue[|s.statsQueue|].Keys == data.Keys
  {
    TranslatePathsSpec(outputPath, data);
  }

  /**
   * A test case message increments at most one counter: `pov1_count` for a
   * POV of type 1, `pov2_count` for type 2, `crash_count` for a crash.
   */
  lemma TestcaseCounters(s: PluginState, data: Message)
    ensures var t := HandleTestcaseOf(s, data);
      var testcaseType := Get(data, "testcase_type");
      var povType := Get(data, "pov_type");
      (t.pov1Count == s.pov1Count + 1 <==> testcaseType == Str("pov") && povType == Int(1)) &&
      (t.pov2Count == s.pov2Count + 1 <==> testcaseType == Str("pov") && povType == Int(2)) &&
      (t.crashCount == s.crashCount + 1 <==> testcaseType == Str("crash")) &&
      t.crashCount + t.pov1Count + t.pov2Count <= s.crashCount + s.pov1Count + s.pov2Count + 1 &&
      t.crashCount >= s.crashCount && t.pov1Count >= s.pov1Count && t.pov2Count >= s.pov2Count &&
      t.statsQueue == s.statsQueue
  {
  }

  /**
   * A test case message queues its BB coverage file, if any, before its TB
   * coverage file, if any, and nothing else.
   */
  lemma TestcaseQueuesCoverage(s: PluginState, data: Message)
    ensures var t := HandleTestcaseOf(s, data);
      var bb := Get(data, "coverage_filename");
      var tb := Get(data, "tbcoverage_filename");
      |t.coverageQueue| == |s.coverageQueue| + (if bb.Null? then 0 else 1) + (if tb.Null? then 0 else 1) &&
      t.coverageQueue[..|s.coverageQueue|] == s.coverageQueue &&
      (!bb.Null? ==> t.coverageQueue[|s.coverageQueue|] == CoverageRequest(bb, ServerCoverage.BbCoverage)) &&
      (!tb.Null? ==> t.coverageQueue[|t.coverageQueue| - 1] == CoverageRequest(tb, ServerCoverage.TbCoverage))
  {
  }

  /**
   * The coverage files a test case queues are the absolute paths: the output
   * folder joined with the names the message carried.
   */
  lemma QueuedCoverageIsAbsolute(s: PluginState, data: Message, outputPath: string)
    requires Get(data, "type") == Str("testcase")
    requires Get(data, "coverage_filename").Str?
    requires forall i :: 0 <= i < |PathKeys| ==> Joinable(Get(data, PathKeys[i]))
    ensures var (t, _) := Step(s, data, outputPath);
      |t.coverageQueue| > |s.coverageQueue| &&
      t.coverageQueue[|s.coverageQueue|] ==
        CoverageRequest(Str(PosixPath.Join2(outputPath, data["coverage_filename"].s)), ServerCoverage.BbCoverage)
  {
    TranslatePathsSpec(outputPath, data);
    var translated := TranslateAll(outputPath, data, PathKeys).value;
    assert "coverage_filename" == PathKeys[3];
    TestcaseQueuesCoverage(s, translated);
  }

  /** The plugin's class counters, together with the queues of the collector threads it feeds. */
  class CgcInterfacePlugin {
    var crashCount: nat
    var pov1Count: nat
    var pov2Count: nat
    var coverageQueue: seq<CoverageRequest>
    var statsQueue: seq<Message>

    function State(): PluginState
      reads this
    {
      PluginState(crashCount, pov1Count, pov2Count, coverageQueue, statsQueue)
    }

    constructor ()
      ensures State() == PluginState(0, 0, 0, [], [])
    {
      crashCount, pov1Count, pov2Count := 0, 0, 0;
      coverageQueue, statsQueue := [], [];
    }

    /** `handle_testcase`. */
    method HandleTestcase(data: Message)
      modifies this
      ensures State() == HandleTestcaseOf(old(State()), data)
    {
      var testcaseType := Get(data, "testcase_type");
      if testcaseType == Str("pov") {
        var povType := Get(data, "pov_type");
        if povType == Int(1) {
          pov1Count := pov1Count + 1;
        } else if povType == Int(2) {
          pov2Count := pov2Count + 1;
        }
      } else if testcaseType == Str("crash") {
        crashCount := crashCount + 1;
      }
      var coverageFile := Get(data, "coverage_filename");
      if !coverageFile.Null? {
        coverageQueue := coverageQueue + [CoverageRequest(coverageFile, ServerCoverage.BbCoverage)];
      }
      var tbCoverageFile := Get(data, "tbcoverage_filename");
      if !tbCoverageFile.Null? {
        coverageQueue := coverageQueue + [CoverageRequest(tbCoverageFile, ServerCoverage.TbCoverage)];
      }
    }

    /** `handle_stats`. */
    method HandleStats(data: Message)
      modifies this
      ensures State() == old(State()).(statsQueue := old(statsQueue) + [data])
    {
      statsQueue := statsQueue + [data];
    }

    /** `process`: dispatch on the message type. */
    method Process(data: Message, outputPath: string) returns (outcome: Outcome)
      modifies this
      ensures (State(), outcome) == Step(old(State()), data, outputPath)
    {
      var dataType := Get(data, "type");
      if !(dataType in {Str("db_error"), Str("testcase"), Str("recipe"), Str("stats")}) {
        return Pass;
      }
      if dataType == Str("db_error") {
        return Pass;
      }
      var translated := TranslatePaths(outputPath, data);
      if translated.Fail? {
        return Raise(translated.error);
      }
      if dataType == Str("stats") {
        HandleStats(translated.value);
        return Pass;
      }
      if dataType == Str("testcase") {
        HandleTestcase(translated.value);
        return Pass;
      }
      outcome := Pass;
    }
  }
}
