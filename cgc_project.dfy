// commands/project_creation/cgc_project.py: a DARPA CGC (Decree) project.
// Decree binaries take no arguments, and the project always runs with
// seeds, recipes and PoV generation while its own input-file and seed
// warnings and the generic test-case generator are switched off.
module CgcProject {
  import opened Wrappers
  import opened BaseProject

  const BootstrapTemplate := "bootstrap.cgc.sh"
  const LuaTemplate := "s2e-config.cgc.lua"

  /** An image suits a CGC target when the architectures agree and it runs Decree binaries. */
  predicate IsValidImage(targetArch: Option<string>, os: OsDesc)
  {
    IsValidArch(targetArch, os) && "decree" in os.binaryFormats
  }

  /** What every finished CGC configuration satisfies. */
  predicate IsCgcConfig(c: Config)
    reads c
  {
    c.projectType == Some("cgc") && c.targetArgs == [] &&
    c.useSeeds && c.useRecipes && c.enablePovGeneration &&
    !c.warnInputFile && !c.warnSeeds && !c.useTestCaseGenerator
  }

  /**
   * `_finalize_config`. Target arguments are an error; otherwise seeds,
   * recipes and PoV generation are forced on and the two warnings and the
   * test-case generator off. The project type is written before the
   * argument check, so it is set even on failure.
   */
  method FinalizeConfig(c: Config) returns (o: Outcome)
    modifies c`projectType, c`useSeeds, c`useRecipes, c`enablePovGeneration,
             c`warnInputFile, c`warnSeeds, c`useTestCaseGenerator
    ensures c.projectType == Some("cgc")
    ensures o == (if c.targetArgs == [] then Pass else Raise(CommandError))
    ensures o.Pass? ==> IsCgcConfig(c)
    ensures o.Raise? ==>
      c.useSeeds == old(c.useSeeds) && c.useRecipes == old(c.useRecipes) &&
      c.enablePovGeneration == old(c.enablePovGeneration) && c.warnInputFile == old(c.warnInputFile) &&
      c.warnSeeds == old(c.warnSeeds) && c.useTestCaseGenerator == old(c.useTestCaseGenerator)
  {
    c.projectType := Some("cgc");
    if c.targetArgs != [] {
      return Raise(CommandError);
    }
    if !c.useSeeds {
      c.useSeeds := true;
    }
    if !c.useRecipes {
      c.useRecipes := true;
    }
    if !c.enablePovGeneration {
      c.enablePovGeneration := true;
    }
    c.warnInputFile := false;
    c.warnSeeds := false;
    c.useTestCaseGenerator := false;
    o := Pass;
  }

  /** A finished CGC configuration never prints the '@@' or the seeds warning. */
  lemma CgcConfigIsQuiet(c: Config)
    requires IsCgcConfig(c)
    ensures !DisplayMarkerWarning(c) && !DisplaySeedsWarning(c)
  {
  }
}
