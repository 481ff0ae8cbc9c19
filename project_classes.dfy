// The five project classes of commands/project_creation and the template
// method they share: `BaseProject._configure` builds the dictionary, lets
// the class analyse the target, applies the PoV rule and hands the
// dictionary to the class's `_finalize_config`; `_guess_image` picks the
// first image the class accepts.
module ProjectClasses {
  import opened Wrappers
  import opened BaseProject
  import PosixPath
  import CgcProject
  import LinuxProject
  import WindowsProject

  datatype ProjectClass = CGCProject | LinuxProject | WindowsProject | WindowsDLLProject | WindowsDriverProject

  /** The `project_type` each class writes in `_finalize_config`. */
  function ProjectType(pc: ProjectClass): string
  {
    match pc
    case CGCProject => "cgc"
    case LinuxProject => "linux"
    case _ => "windows"
  }

  /** The bootstrap template each class passes to `BaseProject.__init__`. */
  function BootstrapTemplate(pc: ProjectClass): string
  {
    match pc
    case CGCProject => CgcProject.BootstrapTemplate
    case LinuxProject => LinuxProject.BootstrapTemplate
    case WindowsProject => WindowsProject.BootstrapTemplate
    case WindowsDLLProject => WindowsProject.DllBootstrapTemplate
    case WindowsDriverProject => WindowsProject.DriverBootstrapTemplate
  }

  /** The Lua template each class passes to `BaseProject.__init__`. */
  function LuaTemplate(pc: ProjectClass): string
  {
    match pc
    case CGCProject => CgcProject.LuaTemplate
    case LinuxProject => LinuxProject.LuaTemplate
    case _ => WindowsProject.LuaTemplate
  }

  /**
   * `_is_valid_image` of each class. Only the DLL project can raise: on a
   * name without '.dll', and on a missing path, whose `endswith` does not
   * exist.
   */
  function IsValidImage(pc: ProjectClass, targetPath: Option<string>, targetArch: Option<string>, os: OsDesc): (r: Result<bool>)
    ensures r.Fail? ==> pc == WindowsDLLProject
    ensures pc == WindowsDLLProject && targetPath.None? ==> r == Fail(AttributeError)
    ensures pc != WindowsDriverProject && r == Ok(true) ==> IsValidArch(targetArch, os)
    ensures pc == WindowsDriverProject ==> (r == Ok(true) <==> os.name == "windows" && targetArch == Some(os.arch))
  {
    match pc
    case CGCProject => Ok(CgcProject.IsValidImage(targetArch, os))
    case LinuxProject => Ok(LinuxProject.IsValidImage(targetArch, os))
    case WindowsProject => Ok(WindowsProject.IsValidImage(targetArch, os))
    case WindowsDLLProject =>
      if targetPath.None? then Fail(AttributeError)
      else WindowsProject.DllIsValidImage(targetPath.value, targetArch, os)
    case WindowsDriverProject => Ok(WindowsProject.DriverIsValidImage(targetArch, os))
  }

  /** One entry of `images.json`: the image name and its `os` descriptor. */
  datatype ImageEntry = ImageEntry(name: string, os: OsDesc)

  /**
   * `_guess_image`: the first image, in iteration order, whose OS the
   * class accepts; CommandError when none does. An exception from
   * `_is_valid_image` ends the search.
   */
  function GuessImage(pc: ProjectClass, targetPath: Option<string>, targetArch: Option<string>,
                      images: seq<ImageEntry>): (r: Result<string>)
    ensures r.Ok? ==>
      exists i :: 0 <= i < |images| && images[i].name == r.value &&
        IsValidImage(pc, targetPath, targetArch, images[i].os) == Ok(true) &&
        forall j :: 0 <= j < i ==> IsValidImage(pc, targetPath, targetArch, images[j].os) == Ok(false)
    ensures (forall i :: 0 <= i < |images| ==> IsValidImage(pc, targetPath, targetArch, images[i].os) == Ok(false))
      ==> r == Fail(CommandError)
    ensures r.Fail? && (forall i :: 0 <= i < |images| ==> IsValidImage(pc, targetPath, targetArch, images[i].os).Ok?)
      ==> forall i :: 0 <= i < |images| ==> IsValidImage(pc, targetPath, targetArch, images[i].os) == Ok(false)
    decreases |images|
  {
    if images == [] then Fail(CommandError)
    else
      var v := IsValidImage(pc, targetPath, targetArch, images[0].os);
      if v.Fail? then Fail(v.error)
      else if v.value then Ok(images[0].name)
      else
        var r := GuessImage(pc, targetPath, targetArch, images[1..]);
        assert forall i :: 1 <= i < |images| ==> images[1..][i - 1] == images[i];
        if r.Ok? then
          var k :| 0 <= k < |images[1..]| && images[1..][k].name == r.value &&
            IsValidImage(pc, targetPath, targetArch, images[1..][k].os) == Ok(true) &&
            forall j :: 0 <= j < k ==> IsValidImage(pc, targetPath, targetArch, images[1..][j].os) == Ok(false);
          assert images[k + 1] == images[1..][k];
          r
        else r
  }

  /** What `_analyze_target` learns about the target; the ELF and PE readers are not modelled. */
  datatype Analysis = Analysis(dynamicallyLinked: bool, modelledFunctions: seq<string>, dllExports: seq<string>)

  /** The key every finished configuration agrees with: '@@' among the arguments. */
  predicate SymbInputConsistent(c: Config)
    reads c
  {
    c.useSymbInputFile <==> "@@" in c.targetArgs
  }

  /** The class-specific guarantees of `_finalize_config`. */
  predicate Finalized(pc: ProjectClass, c: Config)
    reads c
  {
    c.projectType == Some(ProjectType(pc)) &&
    match pc
    case CGCProject => CgcProject.IsCgcConfig(c)
    case LinuxProject => true
    case WindowsProject => true
    case WindowsDLLProject => WindowsProject.IsDllConfig(c)
    case WindowsDriverProject => WindowsProject.IsDriverConfig(c)
  }

  /** The `project_dir` of `_configure`: `env_path('projects', name)`. */
  function ProjectDir(envDir: string, name: string): (r: string)
    ensures PyStr.EndsWith(r, name)
  {
    PosixPath.Join2(PosixPath.Join2(envDir, "projects"), name)
  }

  /**
   * The checks `_configure` makes before it builds the dictionary: with a
   * target path given, the image must agree with the target's architecture
   * (CommandError); then the project name is the `name` option or the
   * target's basename without extension (AttributeError without either).
   */
  function CheckAndName(targetPath: Option<string>, targetArch: Option<string>, img: ImageDesc, name: Option<string>)
    : (r: Result<string>)
    ensures Given(targetPath) && !IsValidArch(targetArch, img.os) ==> r == Fail(CommandError)
    ensures (Given(targetPath) ==> IsValidArch(targetArch, img.os)) ==> r == ProjectName(name, targetPath)
    ensures r.Fail? <==> (Given(targetPath) && !IsValidArch(targetArch, img.os)) || (!Given(name) && targetPath.None?)
  {
    if Given(targetPath) && !IsValidArch(targetArch, img.os) then Fail(CommandError)
    else ProjectName(name, targetPath)
  }

  /**
   * The module list `_finalize_config` leaves: the Windows executable and
   * DLL projects lower-case the names, a driver project lists its '.sys'
   * target files instead, the others keep the list.
   */
  function FinalModules(pc: ProjectClass, mods: seq<ModuleEntry>, targetFiles: seq<string>): seq<ModuleEntry>
  {
    match pc
    case WindowsProject => WindowsProject.LowerModules(mods)
    case WindowsDLLProject => WindowsProject.LowerModules(mods)
    case WindowsDriverProject => WindowsProject.SysModules(targetFiles)
    case _ => mods
  }

  /** DLL and driver projects run no process of their own. */
  function FinalProcesses(pc: ProjectClass, processes: seq<string>): seq<string>
  {
    if pc == WindowsDLLProject || pc == WindowsDriverProject then [] else processes
  }

  /** A DLL project without arguments calls `DllEntryPoint`. */
  function FinalTargetArgs(pc: ProjectClass, args: seq<string>): seq<string>
  {
    if pc == WindowsDLLProject && args == [] then ["DllEntryPoint"] else args
  }

  /** Seeds are forced on for CGC and off for DLLs. */
  function FinalUseSeeds(pc: ProjectClass, useSeeds: bool): bool
  {
    if pc == CGCProject then true else if pc == WindowsDLLProject then false else useSeeds
  }

  /** The entries of the configuration that `_configure` and `_finalize_config` go on to rewrite. */
  datatype Rewritable = Rewritable(
    modules: seq<ModuleEntry>,
    processes: seq<string>,
    targetArgs: seq<string>,
    useSeeds: bool,
    useRecipes: bool,
    enablePovGeneration: bool,
    warnSeeds: bool,
    warnInputFile: bool,
    useTestCaseGenerator: bool,
    useFaultInjection: bool)

  function Rewritten(c: Config): Rewritable
    reads c
  {
    Rewritable(c.modules, c.processes, c.targetArgs, c.useSeeds, c.useRecipes, c.enablePovGeneration,
               c.warnSeeds, c.warnInputFile, c.useTestCaseGenerator, c.useFaultInjection)
  }

  /**
   * Those entries in the dictionary literal: the target's basename as the
   * only user-mode module and the only process (none without a target),
   * arguments, seeds and PoV generation from the options, recipes and
   * fault injection off, both warnings and the test-case generator on.
   */
  function Literal(targetName: Option<string>, opts: Options): Rewritable
  {
    Rewritable(if targetName.Some? then [ModuleEntry(targetName.value, false)] else [],
               if targetName.Some? then [targetName.value] else [], opts.targetArgs,
               opts.useSeeds, false, opts.enablePovGeneration, true, true, true, false)
  }

  /** PoV generation turns recipes on. */
  function PovRule(v: Rewritable): Rewritable
  {
    v.(useRecipes := v.useRecipes || v.enablePovGeneration)
  }

  /**
   * What a successful `_finalize_config` leaves: modules, processes and
   * arguments as the functions above say; CGC forces seeds, recipes and PoV
   * generation on and both warnings and the test-case generator off; DLLs
   * turn seeds off; drivers turn fault injection on.
   */
  function Finalize(pc: ProjectClass, v: Rewritable, targetFiles: seq<string>): Rewritable
  {
    var cgc := pc == CGCProject;
    Rewritable(FinalModules(pc, v.modules, targetFiles), FinalProcesses(pc, v.processes),
               FinalTargetArgs(pc, v.targetArgs), FinalUseSeeds(pc, v.useSeeds),
               cgc || v.useRecipes, cgc || v.enablePovGeneration,
               !cgc && v.warnSeeds, !cgc && v.warnInputFile, !cgc && v.useTestCaseGenerator,
               pc == WindowsDriverProject || v.useFaultInjection)
  }

  /**
   * `_configure`. The image descriptor is the one `_select_image` chose,
   * `guestfsPath` what `_select_guestfs` found and `creationTime` the clock
   * reading. It fails where `CheckAndName` fails, and with CommandError
   * when a CGC project is given target arguments.
   */
  method Configure(pc: ProjectClass, envDir: string, creationTime: string, img: ImageDesc,
                   targetPath: Option<string>, targetArch: Option<string>, auxFiles: seq<string>,
                   opts: Options, guestfsPath: Option<string>, analysis: Analysis)
    returns (r: Result<Config>)
    ensures CheckAndName(targetPath, targetArch, img, opts.name).Fail? ==>
      r == Fail(CheckAndName(targetPath, targetArch, img, opts.name).error)
    ensures CheckAndName(targetPath, targetArch, img, opts.name).Ok? ==>
      (r == Fail(CommandError) <==> pc == CGCProject && opts.targetArgs != [])
    ensures CheckAndName(targetPath, targetArch, img, opts.name).Ok? && !(pc == CGCProject && opts.targetArgs != []) ==> r.Ok?
    ensures r.Ok? ==> fresh(r.value) && Finalized(pc, r.value) && SymbInputConsistent(r.value)
    ensures r.Ok? ==> (r.value.enablePovGeneration ==> r.value.useRecipes)
    ensures r.Ok? ==> r.value.projectDir == ProjectDir(envDir, CheckAndName(targetPath, targetArch, img, opts.name).value)
    ensures r.Ok? ==> r.value.targetPath == targetPath && r.value.image == img && r.value.symArgs == opts.symArgs
    ensures r.Ok? && pc == LinuxProject && Given(targetPath) ==>
      r.value.dynamicallyLinked == analysis.dynamicallyLinked &&
      r.value.modelledFunctions == Some(analysis.modelledFunctions)
    ensures r.Ok? && pc == WindowsDLLProject && Given(targetPath) ==> r.value.dllExports == Some(analysis.dllExports)
    ensures r.Ok? ==> r.value.creationTime == creationTime && r.value.targetArch == targetArch
    ensures r.Ok? ==> r.value.targetFiles == (if Given(targetPath) then [targetPath.value] else []) + auxFiles
    ensures r.Ok? ==>
      r.value.seedsDir == PosixPath.Join2(r.value.projectDir, "seeds") &&
      r.value.recipesDir == PosixPath.Join2(r.value.projectDir, "recipes")
    ensures r.Ok? ==> r.value.guestfsPath == guestfsPath && (r.value.hasGuestfs <==> guestfsPath.Some?) && r.value.useCupa
    ensures r.Ok? ==> Rewritten(r.value) == Finalize(pc, PovRule(Literal(TargetBasename(targetPath), opts)), r.value.targetFiles)
  {
    var name :- CheckAndName(targetPath, targetArch, img, opts.name);
    var projectDir := ProjectDir(envDir, name);
    var c, o := Build(pc, creationTime, projectDir, img, targetPath, targetArch, TargetBasename(targetPath), auxFiles,
                      opts, PosixPath.Join2(projectDir, "seeds"), PosixPath.Join2(projectDir, "recipes"), guestfsPath,
                      analysis);
    if o.Raise? {
      return Fail(o.error);
    }
    return Ok(c);
  }

  /**
   * The dictionary literal of `_configure`, from the values the caller
   * computed, then `Complete`.
   */
  method Build(pc: ProjectClass, creationTime: string, projectDir: string, img: ImageDesc,
               targetPath: Option<string>, targetArch: Option<string>, targetName: Option<string>,
               auxFiles: seq<string>, opts: Options, seedsDir: string, recipesDir: string,
               guestfsPath: Option<string>, analysis: Analysis)
    returns (c: Config, o: Outcome)
    ensures fresh(c)
    ensures o == (if pc == CGCProject && opts.targetArgs != [] then Raise(CommandError) else Pass)
    ensures o.Pass? ==> Finalized(pc, c) && SymbInputConsistent(c) && (c.enablePovGeneration ==> c.useRecipes)
    ensures pc == LinuxProject && Given(targetPath) ==>
      c.dynamicallyLinked == analysis.dynamicallyLinked && c.modelledFunctions == Some(analysis.modelledFunctions)
    ensures pc == WindowsDLLProject && Given(targetPath) ==> c.dllExports == Some(analysis.dllExports)
    ensures c.creationTime == creationTime && c.projectDir == projectDir && c.image == img
    ensures c.targetPath == targetPath && c.targetArch == targetArch && c.symArgs == opts.symArgs
    ensures c.targetFiles == (if Given(targetPath) then [targetPath.value] else []) + auxFiles
    ensures c.seedsDir == seedsDir && c.recipesDir == recipesDir
    ensures c.guestfsPath == guestfsPath && (c.hasGuestfs <==> guestfsPath.Some?) && c.useCupa
    ensures o.Pass? ==> Rewritten(c) == Finalize(pc, PovRule(Literal(targetName, opts)), c.targetFiles)
  {
    c := new Config(creationTime, projectDir, img, targetPath, targetArch, targetName, auxFiles, opts,
                    seedsDir, recipesDir, guestfsPath);
    assert Rewritten(c) == Literal(targetName, opts);
    o := Complete(pc, c, analysis, Given(targetPath));
  }

  /**
   * The part of `_configure` after the dictionary literal: the analysis of
   * a given target, the PoV rule and the class's finalisation.
   */
  method Complete(pc: ProjectClass, c: Config, analysis: Analysis, hasTarget: bool) returns (o: Outcome)
    requires SymbInputConsistent(c) && !c.useRecipes
    modifies c`dynamicallyLinked, c`modelledFunctions, c`dllExports,
             c`projectType, c`useSeeds, c`useRecipes, c`enablePovGeneration, c`warnInputFile, c`warnSeeds,
             c`useTestCaseGenerator, c`modules, c`processes, c`targetArgs, c`useFaultInjection
    ensures o == (if pc == CGCProject && old(c.targetArgs) != [] then Raise(CommandError) else Pass)
    ensures o.Pass? ==> Finalized(pc, c) && SymbInputConsistent(c) && (c.enablePovGeneration ==> c.useRecipes)
    ensures pc == LinuxProject && hasTarget ==>
      c.dynamicallyLinked == analysis.dynamicallyLinked && c.modelledFunctions == Some(analysis.modelledFunctions)
    ensures pc == WindowsDLLProject && hasTarget ==> c.dllExports == Some(analysis.dllExports)
    ensures o.Pass? ==> Rewritten(c) == Finalize(pc, PovRule(old(Rewritten(c))), c.targetFiles)
  {
    ghost var literal := Rewritten(c);
    if hasTarget {
      AnalyzeTarget(pc, c, analysis);
    }
    assert Rewritten(c) == literal;
    ApplyPovRule(c);
    o := FinalizeConfig(pc, c);
  }

  /** `enable_pov_generation` turns `use_recipes` on; nothing else changes. */
  method ApplyPovRule(c: Config)
    requires SymbInputConsistent(c)
    modifies c`useRecipes
    ensures Rewritten(c) == PovRule(old(Rewritten(c)))
    ensures SymbInputConsistent(c) && (c.enablePovGeneration ==> c.useRecipes)
  {
    if c.enablePovGeneration {
      c.useRecipes := true;
    }
  }

  /** `_analyze_target`: only the Linux and DLL projects look at the binary. */
  method AnalyzeTarget(pc: ProjectClass, c: Config, analysis: Analysis)
    modifies c`dynamicallyLinked, c`modelledFunctions, c`dllExports
    ensures pc == LinuxProject ==>
      c.dynamicallyLinked == analysis.dynamicallyLinked && c.modelledFunctions == Some(analysis.modelledFunctions) &&
      c.dllExports == old(c.dllExports)
    ensures pc == WindowsDLLProject ==>
      c.dllExports == Some(analysis.dllExports) &&
      c.dynamicallyLinked == old(c.dynamicallyLinked) && c.modelledFunctions == old(c.modelledFunctions)
    ensures pc != LinuxProject && pc != WindowsDLLProject ==>
      c.dynamicallyLinked == old(c.dynamicallyLinked) && c.modelledFunctions == old(c.modelledFunctions) &&
      c.dllExports == old(c.dllExports)
  {
    if pc == LinuxProject {
      LinuxProject.AnalyzeTarget(c, analysis.dynamicallyLinked, analysis.modelledFunctions);
    } else if pc == WindowsDLLProject {
      WindowsProject.DllAnalyzeTarget(c, analysis.dllExports);
    }
  }

  /**
   * `_finalize_config` of each class. Every class keeps '@@' and
   * `use_symb_input_file` in step and never turns off recipes while PoV
   * generation is on.
   */
  method FinalizeConfig(pc: ProjectClass, c: Config) returns (o: Outcome)
    requires SymbInputConsistent(c)
    requires c.enablePovGeneration ==> c.useRecipes
    modifies c`projectType, c`useSeeds, c`useRecipes, c`enablePovGeneration, c`warnInputFile, c`warnSeeds,
             c`useTestCaseGenerator, c`modules, c`processes, c`targetArgs, c`useFaultInjection
    ensures o == (if pc == CGCProject && old(c.targetArgs) != [] then Raise(CommandError) else Pass)
    ensures o.Pass? ==> Finalized(pc, c) && SymbInputConsistent(c) && (c.enablePovGeneration ==> c.useRecipes)
    ensures o.Pass? ==> Rewritten(c) == Finalize(pc, old(Rewritten(c)), c.targetFiles)
  {
    match pc
    case CGCProject =>
      o := CgcProject.FinalizeConfig(c);
    case LinuxProject =>
      LinuxProject.FinalizeConfig(c);
      o := Pass;
    case _ =>
      FinalizeWindows(pc, c);
      o := Pass;
  }

  /** `_finalize_config` of the three Windows classes. */
  method FinalizeWindows(pc: ProjectClass, c: Config)
    requires pc == WindowsProject || pc == WindowsDLLProject || pc == WindowsDriverProject
    requires SymbInputConsistent(c)
    requires c.enablePovGeneration ==> c.useRecipes
    modifies c`projectType, c`useSeeds, c`modules, c`processes, c`targetArgs, c`useFaultInjection
    ensures Finalized(pc, c) && SymbInputConsistent(c) && (c.enablePovGeneration ==> c.useRecipes)
    ensures Rewritten(c) == Finalize(pc, old(Rewritten(c)), c.targetFiles)
  {
    match pc
    case WindowsProject =>
      WindowsProject.FinalizeConfig(c);
    case WindowsDLLProject =>
      WindowsProject.DllFinalizeConfig(c);
    case WindowsDriverProject =>
      WindowsProject.DriverFinalizeConfig(c);
  }
}
