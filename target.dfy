// commands/project_creation/target.py: classifying a target program by its
// libmagic description, collecting the files of a Windows driver package,
// and the `Target` record the project classes read.
module Target {
  import opened Wrappers
  import opened PyStr
  import PosixPath
  import opened ProjectClasses

  // ---------------------------------------------------------------------
  // _determine_arch_and_proj

  /**
   * One row of the check table: which magic database to ask (the CGC one or
   * the default one), the description prefix its anchored regex accepts,
   * and the project class, architecture and operating system it implies.
   */
  datatype MagicCheck = MagicCheck(cgcDatabase: bool, prefix: string, projClass: ProjectClass, arch: string, os: string)

  /** The table of `_determine_arch_and_proj`, in the order it is tried. */
  const MagicChecks: seq<MagicCheck> := [
    MagicCheck(true, "CGC 32-bit", CGCProject, "i386", "decree"),
    MagicCheck(false, "ELF 32-bit", LinuxProject, "i386", "linux"),
    MagicCheck(false, "ELF 64-bit", LinuxProject, "x86_64", "linux"),
    MagicCheck(false, "PE32 executable (DLL)", WindowsDLLProject, "i386", "windows"),
    MagicCheck(false, "PE32+ executable (DLL)", WindowsDLLProject, "x86_64", "windows"),
    MagicCheck(false, "PE32 executable (native)", WindowsDriverProject, "i386", "windows"),
    MagicCheck(false, "PE32+ executable (native)", WindowsDriverProject, "x86_64", "windows"),
    MagicCheck(false, "PE32 executable", WindowsProject, "i386", "windows"),
    MagicCheck(false, "PE32+ executable", WindowsProject, "x86_64", "windows"),
    MagicCheck(false, "MS-DOS executable", WindowsProject, "i386", "windows")
  ]

  /** The result of a successful classification. */
  datatype Kind = Kind(arch: string, os: string, projClass: ProjectClass)

  /** A row accepts the description its database gives for the file. */
  predicate RowMatches(row: MagicCheck, cgcMagic: string, defaultMagic: string)
  {
    StartsWith(if row.cgcDatabase then cgcMagic else defaultMagic, row.prefix)
  }

  function KindOf(row: MagicCheck): Kind
  {
    Kind(row.arch, row.os, row.projClass)
  }

  /**
   * The first row of `checks` that accepts the file, or None when no row
   * does (the `(None, None, None)` of the source).
   */
  function FirstMatch(checks: seq<MagicCheck>, cgcMagic: string, defaultMagic: string): (r: Option<Kind>)
    ensures r.None? <==> forall i :: 0 <= i < |checks| ==> !RowMatches(checks[i], cgcMagic, defaultMagic)
    ensures r.Some? ==>
      exists i :: 0 <= i < |checks| && RowMatches(checks[i], cgcMagic, defaultMagic) &&
        r.value == KindOf(checks[i]) && forall j :: 0 <= j < i ==> !RowMatches(checks[j], cgcMagic, defaultMagic)
  {
    if checks == [] then None
    else if RowMatches(checks[0], cgcMagic, defaultMagic) then Some(KindOf(checks[0]))
    else
      var r := FirstMatch(checks[1..], cgcMagic, defaultMagic);
      assert forall i :: 1 <= i < |checks| ==> checks[1..][i - 1] == checks[i];
      if r.Some? then
        var k :| 0 <= k < |checks[1..]| && RowMatches(checks[1..][k], cgcMagic, defaultMagic) &&
          r.value == KindOf(checks[1..][k]) && forall j :: 0 <= j < k ==> !RowMatches(checks[1..][j], cgcMagic, defaultMagic);
        assert checks[k + 1] == checks[1..][k];
        r
      else r
  }

  /**
   * `_determine_arch_and_proj` for the descriptions the two magic databases
   * give for the (symlink-resolved) target: the table is tried in order and
   * the first accepting row wins.
   */
  method DetermineArchAndProj(cgcMagic: string, defaultMagic: string) returns (r: Option<Kind>)
    ensures r == FirstMatch(MagicChecks, cgcMagic, defaultMagic)
  {
    var i := 0;
    while i < |MagicChecks|
      invariant 0 <= i <= |MagicChecks|
      invariant FirstMatch(MagicChecks[i..], cgcMagic, defaultMagic) == FirstMatch(MagicChecks, cgcMagic, defaultMagic)
    {
      assert MagicChecks[i..][1..] == MagicChecks[i + 1..];
      var row := MagicChecks[i];
      if StartsWith(if row.cgcDatabase then cgcMagic else defaultMagic, row.prefix) {
        return Some(Kind(row.arch, row.os, row.projClass));
      }
      i := i + 1;
    }
    return None;
  }

  /**
   * The DLL and native-driver rows come before the plain PE32 rows: a
   * 32-bit DLL is a DLL project although its description also starts with
   * "PE32 executable".
   */
  lemma DllRowWinsOverPe(cgcMagic: string, defaultMagic: string)
    requires !StartsWith(cgcMagic, "CGC 32-bit")
    requires StartsWith(defaultMagic, "PE32 executable (DLL)")
    ensures RowMatches(MagicChecks[7], cgcMagic, defaultMagic)
    ensures FirstMatch(MagicChecks, cgcMagic, defaultMagic) == Some(Kind("i386", "windows", WindowsDLLProject))
  {
    assert defaultMagic[..15] == defaultMagic[..21][..15];
    assert defaultMagic[0] == 'P' by { assert defaultMagic[..21][0] == defaultMagic[0]; }
    assert RowMatches(MagicChecks[3], cgcMagic, defaultMagic);
    var k :| 0 <= k < |MagicChecks| && RowMatches(MagicChecks[k], cgcMagic, defaultMagic) &&
      FirstMatch(MagicChecks, cgcMagic, defaultMagic).value == KindOf(MagicChecks[k]) &&
      forall j :: 0 <= j < k ==> !RowMatches(MagicChecks[j], cgcMagic, defaultMagic);
    assert !RowMatches(MagicChecks[1], cgcMagic, defaultMagic) by {
      assert defaultMagic[..10][0] == 'P';
    }
    assert !RowMatches(MagicChecks[2], cgcMagic, defaultMagic) by {
      assert defaultMagic[..10][0] == 'P';
    }
  }

  /** A CGC description is recognised before any other row is consulted. */
  lemma CgcRowFirst(cgcMagic: string, defaultMagic: string)
    requires StartsWith(cgcMagic, "CGC 32-bit")
    ensures FirstMatch(MagicChecks, cgcMagic, defaultMagic) == Some(Kind("i386", "decree", CGCProject))
  {
  }

  // ---------------------------------------------------------------------
  // _extract_inf_files

  /**
   * The loop of `_extract_inf_files` over the driver's files: each file is
   * looked for next to the INF file; a missing catalog ('.cat') is skipped
   * and any other missing file is a TargetError.
   */
  function CollectInf(baseDir: string, files: seq<string>, existing: set<string>): Result<seq<string>>
  {
    if files == [] then Ok([])
    else
      var full := PosixPath.Join2(baseDir, files[0]);
      var rest := CollectInf(baseDir, files[1..], existing);
      if full !in existing then
        if EndsWith(full, ".cat") then rest else Fail(TargetError)
      else if rest.Fail? then rest
      else Ok([full] + rest.value)
  }

  /**
   * The loop fails, always with TargetError, exactly when some file other
   * than a catalog is missing; otherwise it keeps exactly the files found.
   */
  lemma {:induction false} CollectInfProperties(baseDir: string, files: seq<string>, existing: set<string>)
    ensures CollectInf(baseDir, files, existing).Fail? <==>
      exists f :: f in files && PosixPath.Join2(baseDir, f) !in existing &&
        !EndsWith(PosixPath.Join2(baseDir, f), ".cat")
    ensures CollectInf(baseDir, files, existing).Fail? ==> CollectInf(baseDir, files, existing).error == TargetError
    ensures CollectInf(baseDir, files, existing).Ok? ==>
      forall p :: p in CollectInf(baseDir, files, existing).value <==>
        exists f :: f in files && p == PosixPath.Join2(baseDir, f) && p in existing
  {
    if files != [] {
      CollectInfProperties(baseDir, files[1..], existing);
      assert forall f :: f in files <==> f == files[0] || f in files[1..];
    }
  }

  /** The elements of `s` without repetitions, each at its first occurrence. */
  function Dedup(s: seq<string>): (r: seq<string>)
    ensures forall x :: x in r <==> x in s
    ensures forall i, j :: 0 <= i < j < |r| ==> r[i] != r[j]
  {
    if s == [] then []
    else
      var rest := Dedup(s[..|s| - 1]);
      assert forall x :: x in s <==> x in s[..|s| - 1] || x == s[|s| - 1];
      if s[|s| - 1] in rest then rest else rest + [s[|s| - 1]]
  }

  /** What `_extract_inf_files` returns for the driver's file list. */
  function InfFiles(targetPath: string, driverFiles: seq<string>, existing: set<string>): (r: Result<seq<string>>)
  {
    if driverFiles == [] then Fail(TargetError)
    else
      var paths :- CollectInf(PosixPath.Dirname(targetPath), driverFiles, existing);
      Ok(Dedup(paths))
  }

  /**
   * The file list of a driver package is never empty when it is returned,
   * holds no duplicates, and names only existing files next to the INF file.
   */
  lemma InfFilesProperties(targetPath: string, driverFiles: seq<string>, existing: set<string>)
    ensures driverFiles == [] ==> InfFiles(targetPath, driverFiles, existing) == Fail(TargetError)
    ensures InfFiles(targetPath, driverFiles, existing).Ok? ==>
      var r := InfFiles(targetPath, driverFiles, existing).value;
      (forall i, j :: 0 <= i < j < |r| ==> r[i] != r[j]) &&
      forall p :: p in r <==> p in existing && exists f :: f in driverFiles && p == PosixPath.Join2(PosixPath.Dirname(targetPath), f)
  {
    CollectInfProperties(PosixPath.Dirname(targetPath), driverFiles, existing);
  }

  /** `_extract_inf_files`, given the files the INF parser lists and the paths that exist. */
  method ExtractInfFiles(targetPath: string, driverFiles: seq<string>, existing: set<string>) returns (r: Result<seq<string>>)
    ensures r == InfFiles(targetPath, driverFiles, existing)
  {
    if driverFiles == [] {
      return Fail(TargetError);
    }
    var baseDir := PosixPath.Dirname(targetPath);
    var filePaths: seq<string> := [];
    var i := 0;
    assert driverFiles[0..] == driverFiles;
    assert Prepend([], CollectInf(baseDir, driverFiles, existing)) == CollectInf(baseDir, driverFiles, existing) by {
      var r := CollectInf(baseDir, driverFiles, existing);
      if r.Ok? {
        assert [] + r.value == r.value;
      }
    }
    while i < |driverFiles|
      invariant 0 <= i <= |driverFiles|
      invariant CollectInf(baseDir, driverFiles, existing) == Prepend(filePaths, CollectInf(baseDir, driverFiles[i..], existing))
    {
      CollectStep(baseDir, driverFiles, existing, i, filePaths);
      var fullPath := PosixPath.Join2(baseDir, driverFiles[i]);
      if fullPath !in existing {
        if EndsWith(fullPath, ".cat") {
          i := i + 1;
          continue;
        } else {
          return Fail(TargetError);
        }
      }
      filePaths := filePaths + [fullPath];
      i := i + 1;
    }
    assert driverFiles[i..] == [];
    assert filePaths + [] == filePaths;
    return Ok(Dedup(filePaths));
  }

  /** One more driver file: skipped catalog, missing file, or one more path kept. */
  lemma CollectStep(baseDir: string, files: seq<string>, existing: set<string>, i: nat, acc: seq<string>)
    requires i < |files|
    ensures var full := PosixPath.Join2(baseDir, files[i]);
      Prepend(acc, CollectInf(baseDir, files[i..], existing)) ==
        if full !in existing then
          if EndsWith(full, ".cat") then Prepend(acc, CollectInf(baseDir, files[i + 1..], existing))
          else Fail(TargetError)
        else Prepend(acc + [full], CollectInf(baseDir, files[i + 1..], existing))
  {
    assert files[i..][1..] == files[i + 1..];
    var full := PosixPath.Join2(baseDir, files[i]);
    var rest := CollectInf(baseDir, files[i + 1..], existing);
    assert rest.Ok? ==> (acc + [full]) + rest.value == acc + ([full] + rest.value);
  }

  /** `acc` in front of a successful result; a failure stays a failure. */
  function Prepend(acc: seq<string>, r: Result<seq<string>>): Result<seq<string>>
  {
    if r.Ok? then Ok(acc + r.value) else r
  }

  // ---------------------------------------------------------------------
  // Target

  /**
   * A target: the program, its architecture and operating system (all None
   * for an empty target), the project class and the auxiliary files.
   */
  datatype Target = Target(path: Option<string>, arch: Option<string>, os: Option<string>,
                           projClass: ProjectClass, auxFiles: seq<string>)

  /** `is_empty`: the target has no path, or an empty one. */
  predicate IsEmpty(t: Target)
  {
    !(t.path.Some? && t.path.value != [])
  }

  /** `Target.empty`: no path, architecture, operating system or auxiliary file. */
  function Empty(pc: ProjectClass): (t: Target)
    ensures IsEmpty(t) && t.auxFiles == [] && t.arch.None? && t.os.None? && t.projClass == pc
  {
    Target(None, None, None, pc, [])
  }

  /** The last '.sys' file of the list: the loop in `from_file` keeps overwriting its choice. */
  function LastSys(files: seq<string>): (r: Option<string>)
    ensures r.None? <==> forall i :: 0 <= i < |files| ==> !EndsWith(files[i], ".sys")
    ensures r.Some? ==>
      exists i :: 0 <= i < |files| && files[i] == r.value && EndsWith(r.value, ".sys") &&
        forall j :: i < j < |files| ==> !EndsWith(files[j], ".sys")
  {
    if files == [] then None
    else
      var n := |files| - 1;
      if EndsWith(files[n], ".sys") then Some(files[n])
      else
        var init := files[..n];
        var r := LastSys(init);
        assert forall i :: 0 <= i < n ==> init[i] == files[i];
        r
  }

  /** A custom `project_class`: one of the project classes, or a class that is not one. */
  datatype CustomClass = Known(pc: ProjectClass) | NotAProject

  /**
   * The end of `from_file`: classify the file to analyse, then let a custom
   * class replace the detected one, unless it is not a project class.
   */
  function Classify(path: string, kind: Option<Kind>, custom: Option<CustomClass>, aux: seq<string>): (r: Result<Target>)
    ensures kind.None? || custom == Some(NotAProject) <==> r == Fail(TargetError)
    ensures r.Ok? ==>
      r.value.path == Some(path) && r.value.arch == Some(kind.value.arch) &&
      r.value.os == Some(kind.value.os) && r.value.auxFiles == aux
    ensures r.Ok? ==> r.value.projClass == if custom.Some? then custom.value.pc else kind.value.projClass
  {
    if kind.None? then Fail(TargetError)
    else if custom == Some(NotAProject) then Fail(TargetError)
    else
      var pc := if custom.Some? then custom.value.pc else kind.value.projClass;
      Ok(Target(Some(path), Some(kind.value.arch), Some(kind.value.os), pc, aux))
  }

  /**
   * `Target.from_file`. `files` are the paths that are regular files,
   * `existing` the paths that exist, `driverFiles` what the INF parser lists
   * for an '.inf' target, and `cgcMagic`/`defaultMagic` the descriptions the
   * two magic databases give for a path.
   */
  method FromFile(path: string, files: set<string>, existing: set<string>, driverFiles: seq<string>,
                  cgcMagic: string -> string, defaultMagic: string -> string, custom: Option<CustomClass>)
    returns (r: Result<Target>)
    ensures path !in files ==> r == Fail(TargetError)
    ensures path in files && !EndsWith(path, ".inf") ==>
      r == Classify(path, FirstMatch(MagicChecks, cgcMagic(path), defaultMagic(path)), custom, [])
    ensures path in files && EndsWith(path, ".inf") ==>
      r == match InfFiles(path, driverFiles, existing)
           case Fail(e) => Fail(e)
           case Ok(fs) =>
             match LastSys(fs)
             case None => Fail(TargetError)
             case Some(s) => Classify(path, FirstMatch(MagicChecks, cgcMagic(s), defaultMagic(s)), custom, fs)
  {
    if path !in files {
      return Fail(TargetError);
    }
    var pathToAnalyze := path;
    var auxFiles := [];
    if EndsWith(path, ".inf") {
      var infFiles := ExtractInfFiles(path, driverFiles, existing);
      if infFiles.Fail? {
        return Fail(infFiles.error);
      }
      var fs := infFiles.value;
      var firstSysFile: Option<string> := None;
      var i := 0;
      while i < |fs|
        invariant 0 <= i <= |fs|
        invariant firstSysFile == LastSys(fs[..i])
      {
        assert fs[..i + 1][..i] == fs[..i];
        if EndsWith(fs[i], ".sys") {
          firstSysFile := Some(fs[i]);
        }
        i := i + 1;
      }
      assert fs[..i] == fs;
      if firstSysFile.None? {
        return Fail(TargetError);
      }
      pathToAnalyze := firstSysFile.value;
      auxFiles := fs;
    }
    var kind := DetermineArchAndProj(cgcMagic(pathToAnalyze), defaultMagic(pathToAnalyze));
    r := Classify(path, kind, custom, auxFiles);
  }

  /** An INF package with no '.sys' file is rejected, whatever the magic databases say. */
  lemma InfWithoutSysFails(path: string, driverFiles: seq<string>, existing: set<string>)
    requires InfFiles(path, driverFiles, existing).Ok?
    requires forall f :: f in driverFiles ==> !EndsWith(PosixPath.Join2(PosixPath.Dirname(path), f), ".sys")
    ensures LastSys(InfFiles(path, driverFiles, existing).value).None?
  {
    InfFilesProperties(path, driverFiles, existing);
    var r := InfFiles(path, driverFiles, existing).value;
    forall i | 0 <= i < |r| ensures !EndsWith(r[i], ".sys")
    {
      assert r[i] in r;
    }
  }
}
