// commands/project_creation/linux_project.py: a Linux ELF project.
module LinuxProject {
  import opened Wrappers
  import opened BaseProject

  const BootstrapTemplate := "bootstrap.linux.sh"
  const LuaTemplate := "s2e-config.linux.lua"

  /** An image suits a Linux target when the architectures agree and it runs ELF binaries. */
  predicate IsValidImage(targetArch: Option<string>, os: OsDesc)
  {
    IsValidArch(targetArch, os) && "elf" in os.binaryFormats
  }

  /**
   * `_analyze_target`: the ELF analysis results (whether the binary has a
   * dynamic segment, and which imports S2E has function models for) are
   * written into the dictionary.
   */
  method AnalyzeTarget(c: Config, dynamicallyLinked: bool, modelledFunctions: seq<string>)
    modifies c`dynamicallyLinked, c`modelledFunctions
    ensures c.dynamicallyLinked == dynamicallyLinked && c.modelledFunctions == Some(modelledFunctions)
  {
    c.dynamicallyLinked := dynamicallyLinked;
    c.modelledFunctions := Some(modelledFunctions);
  }

  /** `_finalize_config`: only the project type is set. */
  method FinalizeConfig(c: Config)
    modifies c`projectType
    ensures c.projectType == Some("linux")
  {
    c.projectType := Some("linux");
  }
}
