// commands/project_creation/windows_project.py: Windows executables, DLLs
// and kernel drivers. The DLL and driver projects run the executable
// project's `_finalize_config` first and then adjust the dictionary.
module WindowsProject {
  import opened Wrappers
  import opened PyStr
  import opened BaseProject
  import PosixPath

  const BootstrapTemplate := "bootstrap.windows.sh"
  const DllBootstrapTemplate := "bootstrap.windows_dll.sh"
  const DriverBootstrapTemplate := "bootstrap.windows_driver.sh"
  const LuaTemplate := "s2e-config.windows.lua"

  // ---------------------------------------------------------------------
  // WindowsProject

  /** An image suits a Windows target when the architectures agree and it runs PE binaries. */
  predicate IsValidImage(targetArch: Option<string>, os: OsDesc)
  {
    IsValidArch(targetArch, os) && "pe" in os.binaryFormats
  }

  /** Module names in lower case, each keeping its kernel-mode flag. */
  function LowerModules(mods: seq<ModuleEntry>): (r: seq<ModuleEntry>)
    ensures |r| == |mods|
    ensures forall i :: 0 <= i < |mods| ==>
      r[i].name == Lower(mods[i].name) && r[i].kernelMode == mods[i].kernelMode
  {
    if mods == [] then [] else [ModuleEntry(Lower(mods[0].name), mods[0].kernelMode)] + LowerModules(mods[1..])
  }

  /** Lower-casing the module list a second time changes nothing. */
  lemma LowerModulesIdempotent(mods: seq<ModuleEntry>)
    ensures LowerModules(LowerModules(mods)) == LowerModules(mods)
  {
    var once := LowerModules(mods);
    forall i | 0 <= i < |mods| ensures LowerModules(once)[i] == once[i]
    {
      LowerIdempotent(mods[i].name);
    }
  }

  /** `WindowsProject._finalize_config`: the project type, and lower-case module names. */
  method FinalizeConfig(c: Config)
    modifies c`projectType, c`modules
    ensures c.projectType == Some("windows")
    ensures c.modules == LowerModules(old(c.modules))
  {
    c.projectType := Some("windows");
    c.modules := LowerModules(c.modules);
  }

  // ---------------------------------------------------------------------
  // WindowsDLLProject

  /** A DLL target must carry the '.dll' extension; otherwise the executable rule applies. */
  function DllIsValidImage(targetPath: string, targetArch: Option<string>, os: OsDesc): (r: Result<bool>)
    ensures !EndsWith(targetPath, ".dll") <==> r == Fail(CommandError)
    ensures r.Ok? ==> (r.value <==> IsValidImage(targetArch, os))
  {
    if !EndsWith(targetPath, ".dll") then Fail(CommandError)
    else Ok(IsValidImage(targetArch, os))
  }

  /** `WindowsDLLProject._analyze_target`: the PE exports go into the dictionary. */
  method DllAnalyzeTarget(c: Config, exports: seq<string>)
    modifies c`dllExports
    ensures c.dllExports == Some(exports)
  {
    c.dllExports := Some(exports);
  }

  /** What every finished DLL configuration satisfies. */
  predicate IsDllConfig(c: Config)
    reads c
  {
    c.projectType == Some("windows") && c.processes == [] && !c.useSeeds && c.targetArgs != []
  }

  /**
   * `WindowsDLLProject._finalize_config`: no processes, no seeds, and the
   * entry point `DllEntryPoint` when no argument names one.
   */
  method DllFinalizeConfig(c: Config)
    modifies c`projectType, c`modules, c`processes, c`useSeeds, c`targetArgs
    ensures IsDllConfig(c)
    ensures c.modules == LowerModules(old(c.modules))
    ensures c.targetArgs == if old(c.targetArgs) == [] then ["DllEntryPoint"] else old(c.targetArgs)
  {
    FinalizeConfig(c);
    c.processes := [];
    if c.useSeeds {
      c.useSeeds := false;
    }
    if c.targetArgs == [] {
      c.targetArgs := ["DllEntryPoint"];
    }
  }

  // ---------------------------------------------------------------------
  // WindowsDriverProject

  /** A driver needs a Windows image of exactly its own architecture. */
  predicate DriverIsValidImage(targetArch: Option<string>, os: OsDesc)
  {
    os.name == "windows" && targetArch == Some(os.arch)
  }

  /** The kernel-mode module list of a driver: the basename of every '.sys' target file, in order. */
  function SysModules(targetFiles: seq<string>): (r: seq<ModuleEntry>)
    ensures forall m :: m in r ==> m.kernelMode && EndsWith(m.name, ".sys")
    ensures forall m :: m in r ==>
      exists f :: f in targetFiles && EndsWith(f, ".sys") && m == ModuleEntry(PosixPath.Basename(f), true)
    ensures forall f :: f in targetFiles && EndsWith(f, ".sys") ==> ModuleEntry(PosixPath.Basename(f), true) in r
    ensures |r| <= |targetFiles|
  {
    if targetFiles == [] then []
    else
      var rest := SysModules(targetFiles[1..]);
      var f := targetFiles[0];
      assert forall g :: g in targetFiles[1..] ==> g in targetFiles;
      SysEntry(f) + rest
  }

  /** The entry one target file contributes: its basename in kernel mode if it is a '.sys' file. */
  function SysEntry(f: string): (r: seq<ModuleEntry>)
    ensures forall m :: m in r ==> m.kernelMode && EndsWith(m.name, ".sys")
  {
    if EndsWith(f, ".sys") then
      SysBasename(f);
      [ModuleEntry(PosixPath.Basename(f), true)]
    else []
  }

  /** The entries follow the target files: those of a concatenation are those of each part, in order. */
  lemma {:induction false} SysModulesAppend(a: seq<string>, b: seq<string>)
    ensures SysModules(a + b) == SysModules(a) + SysModules(b)
    decreases |a|
  {
    if a != [] {
      assert (a + b)[1..] == a[1..] + b;
      assert SysModules(a + b) == SysEntry(a[0]) + SysModules(a[1..] + b);
      assert SysModules(a) == SysEntry(a[0]) + SysModules(a[1..]);
      SysModulesAppend(a[1..], b);
    } else {
      assert a + b == b;
    }
  }

  /** One target file gives one kernel-mode entry, its basename, when it is a '.sys' file, and none otherwise. */
  lemma SysModulesSingle(f: string)
    ensures SysModules([f]) == if EndsWith(f, ".sys") then [ModuleEntry(PosixPath.Basename(f), true)] else []
  {
    assert [f][1..] == [];
    assert SysModules([f][1..]) == [];
  }

  /** The basename of a '.sys' path still ends in '.sys'. */
  lemma SysBasename(f: string)
    requires EndsWith(f, ".sys")
    ensures EndsWith(PosixPath.Basename(f), ".sys")
  {
    var b := PosixPath.Basename(f);
    assert f[|f| - 4..] == ".sys";
    var i := PosixPath.RFind(f, '/');
    assert b == f[i + 1..];
    assert i < |f| - 4;
    assert b[|b| - 4..] == f[|f| - 4..];
  }

  /** The loop of `_finalize_config` that collects the '.sys' target files. */
  method CollectSysModules(files: seq<string>) returns (sysModules: seq<ModuleEntry>)
    ensures sysModules == SysModules(files)
  {
    sysModules := [];
    var i := 0;
    while i < |files|
      invariant 0 <= i <= |files|
      invariant sysModules == SysModules(files[..i])
    {
      assert files[..i + 1] == files[..i] + [files[i]];
      SysModulesAppend(files[..i], [files[i]]);
      SysModulesSingle(files[i]);
      if EndsWith(files[i], ".sys") {
        sysModules := sysModules + [ModuleEntry(PosixPath.Basename(files[i]), true)];
      }
      i := i + 1;
    }
    assert files[..i] == files;
  }

  /** What every finished driver configuration satisfies. */
  predicate IsDriverConfig(c: Config)
    reads c
  {
    c.projectType == Some("windows") && c.processes == [] && c.useFaultInjection &&
    forall m :: m in c.modules ==> m.kernelMode && EndsWith(m.name, ".sys")
  }

  /**
   * `WindowsDriverProject._finalize_config`. The executable project's
   * lower-cased module list is replaced by the '.sys' files, which keep the
   * case of their names.
   */
  method DriverFinalizeConfig(c: Config)
    modifies c`projectType, c`modules, c`processes, c`useFaultInjection
    ensures IsDriverConfig(c)
    ensures c.modules == SysModules(c.targetFiles)
  {
    FinalizeConfig(c);
    var sysModules := CollectSysModules(c.targetFiles);
    c.modules := sysModules;
    c.processes := [];
    c.useFaultInjection := true;
  }
}
