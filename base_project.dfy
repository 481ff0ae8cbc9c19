// The shared part of project creation (commands/project_creation/base_project.py):
// the project-directory check, the architecture-consistency rule, the
// configuration dictionary every project starts from, the '@@' rewrite of
// the target arguments, the warnings `_create` prints and the blank-line
// clean-up of the rendered instructions.
module BaseProject {
  import opened Wrappers
  import opened PyStr
  import PosixPath

  /** The `os` part of an image descriptor. */
  datatype OsDesc = OsDesc(name: string, arch: string, binaryFormats: seq<string>)

  /** An image descriptor; only the fields the core reads are kept. */
  datatype ImageDesc = ImageDesc(path: string, os: OsDesc)

  /** One `(module name, kernel mode)` pair of the `modules` list. */
  datatype ModuleEntry = ModuleEntry(name: string, kernelMode: bool)

  /** Python truthiness of an optional string: neither None nor empty. */
  predicate Given(s: Option<string>)
  {
    s.Some? && s.value != []
  }

  // ---------------------------------------------------------------------
  // _check_project_dir

  /** The directories and files that exist, as absolute paths. */
  class FileSystem {
    var dirs: set<string>
    var files: set<string>

    constructor (dirs: set<string>, files: set<string>)
      ensures this.dirs == dirs && this.files == files
    {
      this.dirs := dirs;
      this.files := files;
    }

    /** `shutil.rmtree(d)`: `d` and everything below it disappear. */
    method RemoveTree(d: string)
      modifies this
      ensures dirs == set x | x in old(dirs) && !Below(x, d)
      ensures files == set x | x in old(files) && !Below(x, d)
    {
      dirs := set x | x in dirs && !Below(x, d);
      files := set x | x in files && !Below(x, d);
    }
  }

  /** `p` is `d` itself or lies somewhere under it. */
  predicate Below(p: string, d: string)
  {
    p == d || StartsWith(p, d + "/")
  }

  /**
   * `_check_project_dir`: an absent project directory is left alone; an
   * existing one is removed with `force` and is an error without it.
   */
  method CheckProjectDir(fs: FileSystem, projectDir: string, force: bool) returns (r: Outcome)
    modifies fs
    ensures projectDir !in old(fs.dirs) ==> r == Pass && fs.dirs == old(fs.dirs) && fs.files == old(fs.files)
    ensures projectDir in old(fs.dirs) && !force ==>
      r == Raise(CommandError) && fs.dirs == old(fs.dirs) && fs.files == old(fs.files)
    ensures projectDir in old(fs.dirs) && force ==>
      r == Pass && projectDir !in fs.dirs &&
      fs.dirs == (set x | x in old(fs.dirs) && !Below(x, projectDir)) &&
      fs.files == (set x | x in old(fs.files) && !Below(x, projectDir))
  {
    if projectDir !in fs.dirs {
      return Pass;
    }
    if force {
      fs.RemoveTree(projectDir);
      r := Pass;
    } else {
      r := Raise(CommandError);
    }
  }

  // ---------------------------------------------------------------------
  // is_valid_arch

  /** A 64-bit target needs a 64-bit image; every other pairing is accepted. */
  predicate IsValidArch(targetArch: Option<string>, os: OsDesc)
  {
    !(targetArch == Some("x86_64") && os.arch != "x86_64")
  }

  // ---------------------------------------------------------------------
  // The configuration dictionary

  /** The command-line options `_configure` reads. */
  datatype Options = Options(
    name: Option<string>,
    targetArgs: seq<string>,
    symArgs: seq<int>,
    useSeeds: bool,
    enablePovGeneration: bool)

  /** `os.path.basename` of the target, or None for an empty target. */
  function TargetBasename(targetPath: Option<string>): Option<string>
  {
    if Given(targetPath) then Some(PosixPath.Basename(targetPath.value)) else None
  }

  /**
   * The project name `_configure` uses: the `name` option when given,
   * otherwise the target's basename without its extension. Without either,
   * `os.path.basename(None)` raises AttributeError (None has no `rfind`).
   */
  function ProjectName(name: Option<string>, targetPath: Option<string>): (r: Result<string>)
    ensures Given(name) ==> r == Ok(name.value)
    ensures !Given(name) && targetPath.Some? ==>
      r.Ok? && r.value + PosixPath.Splitext(PosixPath.Basename(targetPath.value)).1 == PosixPath.Basename(targetPath.value)
    ensures !Given(name) && targetPath.None? ==> r == Fail(AttributeError)
  {
    if Given(name) then Ok(name.value)
    else if targetPath.None? then Fail(AttributeError)
    else Ok(PosixPath.Splitext(PosixPath.Basename(targetPath.value)).0)
  }

  /**
   * A project's configuration dictionary, one field per key. `_configure`
   * creates it (the constructor is its dictionary literal) and the project
   * classes overwrite keys in place.
   */
  class Config {
    var creationTime: string
    var projectDir: string
    var image: ImageDesc
    var targetPath: Option<string>
    var targetArch: Option<string>
    var targetArgs: seq<string>
    var targetFiles: seq<string>
    var modules: seq<ModuleEntry>
    var processes: seq<string>
    var symArgs: seq<int>
    var useSymbInputFile: bool
    var useSeeds: bool
    var seedsDir: string
    var useRecipes: bool
    var recipesDir: string
    var hasGuestfs: bool
    var guestfsPath: Option<string>
    var dynamicallyLinked: bool
    var modelledFunctions: Option<seq<string>> // None is the initial False
    var warnSeeds: bool
    var warnInputFile: bool
    var useCupa: bool
    var useTestCaseGenerator: bool
    var useFaultInjection: bool
    var enablePovGeneration: bool
    var projectType: Option<string>            // absent until _finalize_config
    var dllExports: Option<seq<string>>         // only set by the DLL analysis

    /**
     * The dictionary literal of `_configure`. The caller passes the
     * target's basename and the two project sub-directories it computed.
     */
    constructor (creationTime: string, projectDir: string, img: ImageDesc,
                 targetPath: Option<string>, targetArch: Option<string>, targetName: Option<string>,
                 auxFiles: seq<string>, opts: Options, seedsDir: string, recipesDir: string,
                 guestfsPath: Option<string>)
      ensures this.creationTime == creationTime && this.projectDir == projectDir && image == img
      ensures this.targetPath == targetPath && this.targetArch == targetArch
      ensures targetArgs == opts.targetArgs && symArgs == opts.symArgs
      ensures targetFiles == (if Given(targetPath) then [targetPath.value] else []) + auxFiles
      ensures targetName.Some? ==> modules == [ModuleEntry(targetName.value, false)] && processes == [targetName.value]
      ensures targetName.None? ==> modules == [] && processes == []
      ensures useSymbInputFile <==> "@@" in opts.targetArgs
      ensures useSeeds == opts.useSeeds && enablePovGeneration == opts.enablePovGeneration
      ensures this.seedsDir == seedsDir && this.recipesDir == recipesDir
      ensures hasGuestfs == guestfsPath.Some? && this.guestfsPath == guestfsPath
      ensures !useRecipes && !dynamicallyLinked && modelledFunctions.None?
      ensures warnSeeds && warnInputFile && useCupa && useTestCaseGenerator && !useFaultInjection
      ensures projectType.None? && dllExports.None?
    {
      this.creationTime := creationTime;
      this.projectDir := projectDir;
      image := img;
      this.targetPath := targetPath;
      this.targetArch := targetArch;
      targetArgs := opts.targetArgs;
      targetFiles := (if Given(targetPath) then [targetPath.value] else []) + auxFiles;
      modules := if targetName.Some? then [ModuleEntry(targetName.value, false)] else [];
      processes := if targetName.Some? then [targetName.value] else [];
      symArgs := opts.symArgs;
      useSymbInputFile := "@@" in opts.targetArgs;
      useSeeds := opts.useSeeds;
      this.seedsDir := seedsDir;
      useRecipes := false;
      this.recipesDir := recipesDir;
      hasGuestfs := guestfsPath.Some?;
      this.guestfsPath := guestfsPath;
      dynamicallyLinked := false;
      modelledFunctions := None;
      warnSeeds := true;
      warnInputFile := true;
      useCupa := true;
      useTestCaseGenerator := true;
      useFaultInjection := false;
      enablePovGeneration := opts.enablePovGeneration;
      projectType := None;
      dllExports := None;
    }
  }

  // ---------------------------------------------------------------------
  // _create_bootstrap

  const SymbFile := "${SYMB_FILE}"

  /** The bootstrap arguments: each '@@' becomes the symbolic-file variable. */
  function BootstrapArgs(args: seq<string>): (r: seq<string>)
    ensures |r| == |args|
    ensures forall i :: 0 <= i < |args| ==> r[i] == (if args[i] == "@@" then SymbFile else args[i])
  {
    if args == [] then []
    else [if args[0] == "@@" then SymbFile else args[0]] + BootstrapArgs(args[1..])
  }

  /** No '@@' survives the rewrite, and an input-file marker always yields the variable. */
  lemma BootstrapArgsMarker(args: seq<string>)
    ensures "@@" !in BootstrapArgs(args)
    ensures "@@" in args ==> SymbFile in BootstrapArgs(args)
    ensures forall i :: 0 <= i < |args| && args[i] != "@@" ==> BootstrapArgs(args)[i] == args[i]
  {
    var r := BootstrapArgs(args);
    if "@@" in args {
      var i :| 0 <= i < |args| && args[i] == "@@";
      assert r[i] == SymbFile;
    }
  }

  // ---------------------------------------------------------------------
  // Warnings printed at the end of _create

  /** The '@@' marker warning: a target, warnings on, and no symbolic input at all. */
  predicate DisplayMarkerWarning(c: Config)
    reads c
  {
    Given(c.targetPath) && c.warnInputFile && !(c.useSymbInputFile || c.symArgs != [])
  }

  /** The seeds warning: seeds enabled but no '@@' to substitute them into. */
  predicate DisplaySeedsWarning(c: Config)
    reads c
  {
    c.useSeeds && !c.useSymbInputFile && c.warnSeeds
  }

  // ---------------------------------------------------------------------
  // _get_instructions: re.sub(r'([\r\n][\r\n])+', '\n\n', text)

  predicate IsNewline(c: char)
  {
    c == '\r' || c == '\n'
  }

  /** The length of the greedy `([\r\n][\r\n])+` match at the start of `s` (0 when none). */
  function PairRunLength(s: string): (n: nat)
    ensures n % 2 == 0 && n <= |s|
    ensures forall i :: 0 <= i < n ==> IsNewline(s[i])
    ensures !(n + 2 <= |s| && IsNewline(s[n]) && IsNewline(s[n + 1]))
  {
    if |s| >= 2 && IsNewline(s[0]) && IsNewline(s[1]) then 2 + PairRunLength(s[2..]) else 0
  }

  /** The substitution, scanning left to right as `re.sub` does. */
  function CollapseBlankLines(s: string): string
    decreases |s|
  {
    if s == [] then []
    else
      var n := PairRunLength(s);
      if n > 0 then "\n\n" + CollapseBlankLines(s[n..]) else [s[0]] + CollapseBlankLines(s[1..])
  }

  /** The characters of `s` that are not line breaks, in order. */
  function Text(s: string): string
  {
    if s == [] then [] else (if IsNewline(s[0]) then [] else [s[0]]) + Text(s[1..])
  }

  lemma {:induction false} TextAppend(a: string, b: string)
    ensures Text(a + b) == Text(a) + Text(b)
  {
    if a == [] {
      assert a + b == b;
    } else {
      assert (a + b)[1..] == a[1..] + b;
      TextAppend(a[1..], b);
    }
  }

  lemma {:induction false} TextOfNewlines(s: string)
    requires forall i :: 0 <= i < |s| ==> IsNewline(s[i])
    ensures Text(s) == []
  {
    if s != [] {
      TextOfNewlines(s[1..]);
    }
  }

  /** The clean-up only touches line breaks: all other text is kept, in order. */
  lemma {:induction false} CollapseKeepsText(s: string)
    ensures Text(CollapseBlankLines(s)) == Text(s)
    decreases |s|
  {
    if s != [] {
      var n := PairRunLength(s);
      if n > 0 {
        CollapseKeepsText(s[n..]);
        TextAppend("\n\n", CollapseBlankLines(s[n..]));
        assert s == s[..n] + s[n..];
        TextAppend(s[..n], s[n..]);
        TextOfNewlines(s[..n]);
        TextOfNewlines("\n\n");
      } else {
        CollapseKeepsText(s[1..]);
        TextAppend([s[0]], CollapseBlankLines(s[1..]));
        assert s == [s[0]] + s[1..];
        TextAppend([s[0]], s[1..]);
      }
    }
  }

  /** No four line breaks in a row. */
  predicate NoFourNewlines(s: string)
  {
    forall i :: 0 <= i && i + 3 < |s| ==> !FourNewlinesAt(s, i)
  }

  /** The number of line breaks `s` starts with. */
  function LeadingNewlines(s: string): (n: nat)
    ensures n <= |s|
    ensures forall i :: 0 <= i < n ==> IsNewline(s[i])
    ensures n < |s| ==> !IsNewline(s[n])
  {
    if s != [] && IsNewline(s[0]) then 1 + LeadingNewlines(s[1..]) else 0
  }

  /** The number of line breaks `s` ends with. */
  function TrailingNewlines(s: string): (n: nat)
    ensures n <= |s|
    ensures forall i :: |s| - n <= i < |s| ==> IsNewline(s[i])
    ensures n < |s| ==> !IsNewline(s[|s| - n - 1])
  {
    if s != [] && IsNewline(s[|s| - 1]) then 1 + TrailingNewlines(s[..|s| - 1]) else 0
  }

  /** Four line breaks in a row start at index `i` of `s`. */
  predicate FourNewlinesAt(s: string, i: int)
    requires 0 <= i && i + 3 < |s|
  {
    IsNewline(s[i]) && IsNewline(s[i + 1]) && IsNewline(s[i + 2]) && IsNewline(s[i + 3])
  }

  lemma TrailingAtLeast(a: string, k: nat)
    requires k <= |a| && forall j :: |a| - k <= j < |a| ==> IsNewline(a[j])
    ensures TrailingNewlines(a) >= k
  {
  }

  lemma LeadingAtLeast(b: string, k: nat)
    requires k <= |b| && forall j :: 0 <= j < k ==> IsNewline(b[j])
    ensures LeadingNewlines(b) >= k
  {
  }

  /** Two pieces without four line breaks in a row, whose seam holds fewer than four, have none together. */
  lemma NoFourConcat(a: string, b: string)
    requires NoFourNewlines(a) && NoFourNewlines(b)
    requires TrailingNewlines(a) + LeadingNewlines(b) < 4
    ensures NoFourNewlines(a + b)
  {
    var s := a + b;
    forall i | 0 <= i && i + 3 < |s|
      ensures !FourNewlinesAt(s, i)
    {
      if i + 3 < |a| {
        assert FourNewlinesAt(s, i) == FourNewlinesAt(a, i);
      } else if i >= |a| {
        assert FourNewlinesAt(s, i) == FourNewlinesAt(b, i - |a|);
      } else if FourNewlinesAt(s, i) {
        var k := |a| - i;
        assert forall j :: |a| - k <= j < |a| ==> a[j] == s[j];
        assert forall j :: 0 <= j < 4 - k ==> b[j] == s[|a| + j];
        TrailingAtLeast(a, k);
        LeadingAtLeast(b, 4 - k);
      }
    }
  }

  /** How many line breaks the clean-up can leave at the start of its result. */
  lemma {:induction false} CollapseLeading(s: string)
    ensures var r := CollapseBlankLines(s);
      (s == [] || !IsNewline(s[0]) ==> LeadingNewlines(r) == 0) &&
      (|s| >= 1 && IsNewline(s[0]) && (|s| == 1 || !IsNewline(s[1])) ==> LeadingNewlines(r) == 1) &&
      LeadingNewlines(r) <= 3
    decreases |s|
  {
    var r := CollapseBlankLines(s);
    if s != [] {
      var n := PairRunLength(s);
      if n > 0 {
        var t := s[n..];
        var rt := CollapseBlankLines(t);
        CollapseLeading(t);
        assert |t| >= 1 && IsNewline(t[0]) ==> |t| == 1 || !IsNewline(t[1]);
        assert r == "\n\n" + rt;
        assert r[2..] == rt;
        assert LeadingNewlines(r) == 2 + LeadingNewlines(rt) by {
          assert r[1..][1..] == rt;
        }
      } else {
        var rt := CollapseBlankLines(s[1..]);
        CollapseLeading(s[1..]);
        assert r == [s[0]] + rt;
        assert r[1..] == rt;
      }
    }
  }

  /** After the clean-up no run of four or more line breaks is left. */
  lemma {:induction false} CollapseNoFourNewlines(s: string)
    ensures NoFourNewlines(CollapseBlankLines(s))
    decreases |s|
  {
    if s != [] {
      var n := PairRunLength(s);
      if n > 0 {
        var t := s[n..];
        CollapseNoFourNewlines(t);
        CollapseLeading(t);
        assert |t| >= 1 && IsNewline(t[0]) ==> |t| == 1 || !IsNewline(t[1]);
        NoFourConcat("\n\n", CollapseBlankLines(t));
      } else {
        var t := s[1..];
        CollapseNoFourNewlines(t);
        CollapseLeading(t);
        NoFourConcat([s[0]], CollapseBlankLines(t));
      }
    }
  }
}
