// commands/new_project.py: the `new_project` command's argument handling,
// namely the `--sym-args` parser, the checks for an empty (target-less)
// project and the table of project types `-t` accepts.
module NewProject {
  import opened Wrappers
  import opened PyStr
  import opened ProjectClasses
  import Target

  /** `PROJECT_TYPES`: the names `-t` accepts and the class each selects. */
  const ProjectTypes: map<string, ProjectClass> := map[
    "cgc" := CGCProject,
    "linux" := LinuxProject,
    "windows" := WindowsProject,
    "windows_dll" := WindowsDLLProject,
    "windows_driver" := WindowsDriverProject
  ]

  /** Every project class is reachable through exactly one type name. */
  lemma ProjectTypesCoverAllClasses(pc: ProjectClass)
    ensures exists t :: t in ProjectTypes && ProjectTypes[t] == pc
    ensures forall t, u :: t in ProjectTypes && u in ProjectTypes && ProjectTypes[t] == ProjectTypes[u] ==> t == u
  {
    match pc
    case CGCProject => assert ProjectTypes["cgc"] == pc;
    case LinuxProject => assert ProjectTypes["linux"] == pc;
    case WindowsProject => assert ProjectTypes["windows"] == pc;
    case WindowsDLLProject => assert ProjectTypes["windows_dll"] == pc;
    case WindowsDriverProject => assert ProjectTypes["windows_driver"] == pc;
  }

  // ---------------------------------------------------------------------
  // _parse_sym_args

  /**
   * `int()` of each token in order; the first token that is not an integer
   * turns into ArgumentTypeError.
   */
  function ParseTokens(tokens: seq<string>): Result<seq<int>>
  {
    if tokens == [] then Ok([])
    else
      var v := ParseInt(tokens[0], 10);
      var rest := ParseTokens(tokens[1..]);
      if v.None? then Fail(ArgumentTypeError)
      else if rest.Fail? then rest
      else Ok([v.value] + rest.value)
  }

  /**
   * The tokens parse exactly when each is an integer, the values come out
   * in token order, and a failure is always ArgumentTypeError.
   */
  lemma {:induction false} ParseTokensSpec(tokens: seq<string>)
    ensures ParseTokens(tokens).Fail? <==> exists i :: 0 <= i < |tokens| && ParseInt(tokens[i], 10).None?
    ensures ParseTokens(tokens).Fail? ==> ParseTokens(tokens).error == ArgumentTypeError
    ensures ParseTokens(tokens).Ok? ==>
      |ParseTokens(tokens).value| == |tokens| &&
      forall i :: 0 <= i < |tokens| ==> ParseInt(tokens[i], 10) == Some(ParseTokens(tokens).value[i])
  {
    if tokens != [] {
      ParseTokensSpec(tokens[1..]);
      assert forall i :: 1 <= i < |tokens| ==> tokens[1..][i - 1] == tokens[i];
    }
  }

  /** What `_parse_sym_args` returns: nothing for an empty string, else the space-separated integers. */
  function SymArgs(s: string): (r: Result<seq<int>>)
    ensures s == [] ==> r == Ok([])
  {
    if s == [] then Ok([]) else ParseTokens(Split(s, " "))
  }

  /** `xs` in front of a successful result; a failure stays a failure. */
  function PrependInts(xs: seq<int>, r: Result<seq<int>>): Result<seq<int>>
  {
    if r.Ok? then Ok(xs + r.value) else r
  }

  /** One more token: either the error, or one more index in front of the rest. */
  lemma TokenStep(tokens: seq<string>, i: nat, acc: seq<int>)
    requires i < |tokens|
    ensures var v := ParseInt(tokens[i], 10);
      PrependInts(acc, ParseTokens(tokens[i..])) ==
        if v.None? then Fail(ArgumentTypeError)
        else PrependInts(acc + [v.value], ParseTokens(tokens[i + 1..]))
  {
    assert tokens[i..][1..] == tokens[i + 1..] && tokens[i..][0] == tokens[i];
    var v := ParseInt(tokens[i], 10);
    var rest := ParseTokens(tokens[i + 1..]);
    if v.Some? && rest.Ok? {
      assert (acc + [v.value]) + rest.value == acc + ([v.value] + rest.value);
    }
  }

  /** `_parse_sym_args`: the token loop, appending each index and raising on the first bad one. */
  method ParseSymArgs(s: string) returns (r: Result<seq<int>>)
    ensures r == SymArgs(s)
  {
    var symArgs: seq<int> := [];
    if s == [] {
      return Ok(symArgs);
    }
    var tokens := Split(s, " ");
    var i := 0;
    assert tokens[0..] == tokens;
    assert PrependInts([], ParseTokens(tokens)) == ParseTokens(tokens) by {
      if ParseTokens(tokens).Ok? {
        assert [] + ParseTokens(tokens).value == ParseTokens(tokens).value;
      }
    }
    while i < |tokens|
      invariant 0 <= i <= |tokens|
      invariant ParseTokens(tokens) == PrependInts(symArgs, ParseTokens(tokens[i..]))
    {
      TokenStep(tokens, i, symArgs);
      var v := ParseInt(tokens[i], 10);
      if v.None? {
        return Fail(ArgumentTypeError);
      }
      symArgs := symArgs + [v.value];
      i := i + 1;
    }
    assert tokens[i..] == [];
    assert symArgs + [] == symArgs;
    return Ok(symArgs);
  }

  /** The `--sym-args` text for a list of indices: the indices printed and joined by single spaces. */
  function Render(xs: seq<int>): (r: string)
    ensures xs == [] <==> r == []
  {
    Join(" ", RenderAll(xs))
  }

  function RenderAll(xs: seq<int>): (r: seq<string>)
    ensures |r| == |xs| && forall i :: 0 <= i < |xs| ==> r[i] == IntToString(xs[i])
  {
    if xs == [] then [] else [IntToString(xs[0])] + RenderAll(xs[1..])
  }

  /** Each printed index parses back to itself. */
  lemma {:induction false} ParseRendered(xs: seq<int>)
    ensures ParseTokens(RenderAll(xs)) == Ok(xs)
  {
    if xs != [] {
      var parts := RenderAll(xs);
      assert parts[1..] == RenderAll(xs[1..]);
      ParseRendered(xs[1..]);
      ParseIntToString(xs[0]);
      assert [xs[0]] + xs[1..] == xs;
    }
  }

  /** Printing a list of indices and parsing it back gives the same list. */
  lemma SymArgsRoundTrip(xs: seq<int>)
    ensures SymArgs(Render(xs)) == Ok(xs)
  {
    if xs != [] {
      var parts := RenderAll(xs);
      forall p | p in parts ensures !Contains(p, " ")
      {
        var i :| 0 <= i < |parts| && parts[i] == p;
        IntToStringHasNoSpace(xs[i]);
      }
      SplitJoin(parts, " ");
      ParseRendered(xs);
    }
  }

  /** A token that is not an integer (such as the empty token between two spaces) makes the whole string invalid. */
  lemma DoubleSpaceRejected(a: string, b: string)
    requires |a| > 0 && |b| > 0 && !Contains(a, " ") && !Contains(b, " ")
    ensures SymArgs(a + "  " + b).Fail?
  {
    var s := a + "  " + b;
    JoinCons(" ", "", [b]);
    JoinCons(" ", a, ["", b]);
    assert s == Join(" ", [a, "", b]);
    assert !Contains("", " ");
    SplitJoin([a, "", b], " ");
    assert ParseInt("", 10).None?;
    ParseTokensSpec([a, "", b]);
  }

  // ---------------------------------------------------------------------
  // _handle_empty_project

  /**
   * `_handle_empty_project`: an empty project needs `--no-target`, an
   * image and a name (CommandError otherwise, checked in that order); the
   * project class is the custom one if given, otherwise the class `-t`
   * names, and an unknown type is a CommandError.
   */
  function HandleEmptyProject(custom: Option<ProjectClass>, noTarget: bool, image: Option<string>,
                              name: Option<string>, projectType: Option<string>): (r: Result<Target.Target>)
    ensures !noTarget ==> r == Fail(CommandError)
    ensures r.Fail? ==> r.error == CommandError
    ensures r.Ok? <==>
      noTarget && Given(image) && Given(name) &&
      (custom.Some? || (projectType.Some? && projectType.value in ProjectTypes))
    ensures r.Ok? ==>
      Target.IsEmpty(r.value) && r.value.auxFiles == [] &&
      r.value.projClass == if custom.Some? then custom.value else ProjectTypes[projectType.value]
  {
    if !noTarget then Fail(CommandError)
    else if !Given(image) then Fail(CommandError)
    else if !Given(name) then Fail(CommandError)
    else if custom.Some? then Ok(Target.Empty(custom.value))
    else if projectType.None? || projectType.value !in ProjectTypes then Fail(CommandError)
    else Ok(Target.Empty(ProjectTypes[projectType.value]))
  }

  /** Python truthiness of an optional string option. */
  predicate Given(s: Option<string>)
  {
    s.Some? && s.value != []
  }
}
