# s2e-env core, modelled in Dafny

This project models the deterministic core of s2e-env, the command-line
environment that creates and analyses S2E projects. It proves properties of
that model. The parts modelled are:

- **Project creation.** `_configure` builds the project configuration
  dictionary. Each project class (Linux, Windows executable, DLL and driver,
  CGC) then decides whether a VM image suits the target, forces the
  dictionary into a consistent state, and rewrites the `@@` input-file
  marker. Target files are classified by a first-match table over libmagic
  strings. `new_project`, `image_build`, `recipe` and `new_plugin` add their
  own checks and text transforms.
- **Symbol lookup.** Address to module, line and function lookup runs over
  sorted lists with `bisect` insertion, floor search and overlap search.
  Source paths are matched against guest paths.
- **The Windows INF parser.** This covers the line parser, string-key
  expansion, version matching, hardware-id parsing and the case-insensitive
  dictionary.
- **Coverage and statistics.** This covers TB↔BB overlap and basic-block
  coverage, splitting blocks at calls, lcov line counting, the coverage
  server's set differences and summaries, and CGC statistics merging.
- **Execution traces.** This covers the fixed-layout binary trace entries
  (`struct.pack`/`unpack`), trace-file parsing, reconstruction of the
  execution tree, and the analyzer's depth-first walk.

Python exceptions become `Fail(kind)` values of a `Result` type. An
operation that returns nothing or raises yields an `Outcome`. Objects the
source updates in place (the configuration dictionary, the module map, the
line and function tables, the coverage and statistics servers, the recipe
file) are classes whose methods state their whole new state. File contents,
libmagic and ELF/PE analysis results, the clock and "path exists" are
parameters. One Dafny module models one source file, and `pystr`,
`posixpath`, `pystruct`, `pyre` and `bisect` model the Python library
functions the core relies on.

## Model

| member | source | states |
|---|---|---|
| BaseProject.CheckProjectDir | s2e_env/commands/project_creation/base_project.py:42-59 | An absent project directory is a no-op that removes nothing. An existing one without `force` is a CommandError that removes nothing. With `force`, the directory and everything below it are deleted and nothing else is. |
| BaseProject.FileSystem.RemoveTree | s2e_env/commands/project_creation/base_project.py:54 | `shutil.rmtree` removes exactly the directory and the paths under it. |
| BaseProject.ProjectName | s2e_env/commands/project_creation/base_project.py:122-126 | A given `name` option wins. Otherwise the name plus the basename's extension gives back the basename. Without either, AttributeError. |
| BaseProject.BootstrapArgs | s2e_env/commands/project_creation/base_project.py:347-348 | Same length and order. Each '@@' becomes '${SYMB_FILE}' and every other argument is kept. |
| BaseProject.BootstrapArgsMarker | s2e_env/commands/project_creation/base_project.py:341-348 | No '@@' survives the rewrite. Any '@@' in the arguments yields the symbolic-file variable. |
| BaseProject.CollapseKeepsText | s2e_env/commands/project_creation/base_project.py:259-264 | The blank-line clean-up removes only line breaks. All other characters are kept in order. |
| BaseProject.CollapseNoFourNewlines | s2e_env/commands/project_creation/base_project.py:262-264 | After the clean-up, no run of four or more line breaks is left. |
| BaseProject.CollapseLeading | s2e_env/commands/project_creation/base_project.py:264 | Bounds the line breaks left at the start of the result by those at the start of the input. |
| BaseProject.Config.constructor | s2e_env/commands/project_creation/base_project.py:129-183 | Every key of the dictionary literal. The target is the only module (user mode) and the only process, or there are none without a target. `use_symb_input_file` holds iff '@@' is an argument. Seeds, recipe and guestfs entries are set from the computed paths. |
| ProjectClasses.IsValidImage | s2e_env/commands/project_creation/windows_project.py:41-86 | Only the DLL class can fail: on a missing path (AttributeError) or a name without '.dll'. Every non-driver class accepts only arch-consistent images. A driver image is valid iff its OS is 'windows' and its arch equals the target's. |
| ProjectClasses.GuessImage | s2e_env/commands/project_creation/abstract_project.py:153-169 | Returns the first image in order that the class accepts, with every earlier one rejected. CommandError when every image is rejected. A raise from the validity test ends the search. |
| ProjectClasses.ProjectDir | s2e_env/commands/project_creation/base_project.py:127 | The project directory path ends with the project name. |
| ProjectClasses.CheckAndName | s2e_env/commands/project_creation/base_project.py:111-126 | With a target, an arch mismatch with the image is a CommandError. Otherwise the result is the project name. It fails exactly in those two cases (mismatch, or neither name nor target). |
| ProjectClasses.Configure | s2e_env/commands/project_creation/base_project.py:99-198 | Fails exactly where the name check fails, or with CommandError for a CGC project with arguments. Otherwise the new config states every entry: the project dir, target files ([target] + aux files), seeds/recipes dirs, guestfs, creation time, arch and analysis results. The rewritten entries (modules, processes, arguments, seeds, recipes, PoV, warnings, test-case generator, fault injection) equal the class's finalisation of the literal after the PoV rule. It also states '@@' ⇔ `use_symb_input_file` and PoV ⇒ recipes. |
| ProjectClasses.Build | s2e_env/commands/project_creation/base_project.py:129-196 | The dictionary literal followed by the analysis, PoV rule and finalisation, entry by entry as for `Configure`. |
| ProjectClasses.Complete | s2e_env/commands/project_creation/base_project.py:185-196 | Analysis of a given target, then PoV ⇒ recipes, then `_finalize_config`. The rewritten entries equal the finalisation of the PoV-adjusted literal. |
| ProjectClasses.AnalyzeTarget | s2e_env/commands/project_creation/linux_project.py:37-40 | Linux writes `dynamically_linked` and `modelled_functions`, a DLL writes `dll_exports`, and every other class changes nothing. |
| ProjectClasses.FinalizeConfig | s2e_env/commands/project_creation/base_project.py:194-196 | Raises only for CGC with arguments. On success the class's invariants hold, '@@' ⇔ `use_symb_input_file` is kept, PoV ⇒ recipes, and the rewritten entries equal `Finalize` of the old ones. |
| ProjectClasses.FinalizeWindows | s2e_env/commands/project_creation/windows_project.py:44-104 | The three Windows finalisations: the rewritten entries equal `Finalize` of the old ones, and the class invariants and the '@@' link hold. |
| CgcProject.FinalizeConfig | s2e_env/commands/project_creation/cgc_project.py:42-70 | Sets project type 'cgc' first. Arguments are a CommandError. Otherwise seeds, recipes and PoV generation are on, and both warnings and the test-case generator are off. |
| CgcProject.CgcConfigIsQuiet | s2e_env/commands/project_creation/base_project.py:239-257 | A finished CGC configuration never shows the '@@' warning or the seeds warning. |
| LinuxProject.AnalyzeTarget | s2e_env/commands/project_creation/linux_project.py:37-40 | The ELF analysis results are written into `dynamically_linked` and `modelled_functions`, and nothing else changes. |
| LinuxProject.FinalizeConfig | s2e_env/commands/project_creation/linux_project.py:42-43 | Only the project type changes, to 'linux'. |
| WindowsProject.LowerModules | s2e_env/commands/project_creation/windows_project.py:47-48 | Same length. Each module name is lower-cased and keeps its kernel-mode flag. |
| WindowsProject.LowerModulesIdempotent | s2e_env/commands/project_creation/windows_project.py:47-48 | Lower-casing the module list twice gives the same list as once. |
| WindowsProject.FinalizeConfig | s2e_env/commands/project_creation/windows_project.py:44-48 | Project type 'windows' and lower-cased modules. Nothing else changes. |
| WindowsProject.DllIsValidImage | s2e_env/commands/project_creation/windows_project.py:55-59 | A name without '.dll' is a CommandError. Otherwise the executable rule (arch consistent and 'pe' among the formats) decides. |
| WindowsProject.DllAnalyzeTarget | s2e_env/commands/project_creation/windows_project.py:75-77 | The PE exports are written into `dll_exports`, and nothing else changes. |
| WindowsProject.DllFinalizeConfig | s2e_env/commands/project_creation/windows_project.py:61-73 | The executable finalisation, then no processes, seeds off, and `['DllEntryPoint']` when there are no arguments. |
| WindowsProject.SysModules | s2e_env/commands/project_creation/windows_project.py:96-98 | Every entry is a kernel-mode module named by the basename of some '.sys' target file, every '.sys' target file's basename is an entry, and there are no more entries than target files. |
| WindowsProject.SysModulesAppend | s2e_env/commands/project_creation/windows_project.py:96-98 | The entries follow the target files: the entries of two lists joined are those of the first list, then those of the second. |
| WindowsProject.SysModulesSingle | s2e_env/commands/project_creation/windows_project.py:96-98 | One target file gives exactly one kernel-mode entry, its basename, when it ends in '.sys', and no entry otherwise; with `SysModulesAppend`, one entry per '.sys' file, in order. |
| WindowsProject.CollectSysModules | s2e_env/commands/project_creation/windows_project.py:96-98 | The loop's result equals `SysModules` of the target files. |
| WindowsProject.DriverFinalizeConfig | s2e_env/commands/project_creation/windows_project.py:88-104 | Modules are the '.sys' basenames with the kernel flag, processes are empty, fault injection is on, and the project type is 'windows'. |
| BaseProject.PairRunLength | s2e_env/commands/project_creation/base_project.py:264 | The greedy match of `([\r\n][\r\n])+` has even length and consists only of line breaks. It cannot be extended by another pair. |
| Target.FirstMatch | s2e_env/commands/project_creation/target.py:71-97 | None iff no row of the magic table accepts the descriptions. Otherwise the result is the kind of the first accepting row, and every earlier row rejects. |
| Target.DetermineArchAndProj | s2e_env/commands/project_creation/target.py:58-97 | The loop over the magic table returns exactly the first-match result. |
| Target.DllRowWinsOverPe | s2e_env/commands/project_creation/target.py:71-82 | A description starting 'PE32 executable (DLL)' also matches the plain PE32 row, but the earlier DLL row decides: i386 Windows DLL project. |
| Target.CgcRowFirst | s2e_env/commands/project_creation/target.py:72 | A CGC description gives an i386 'decree' CGC project, whatever the default magic says. |
| Target.CollectInfProperties | s2e_env/commands/project_creation/target.py:109-122 | The collection fails, always with TargetError, exactly when a listed file is missing and not a '.cat'. Otherwise it keeps exactly the existing joined paths, in order. |
| Target.Dedup | s2e_env/commands/project_creation/target.py:124 | `list(set(...))`: the same elements as the input, without duplicates. |
| Target.InfFilesProperties | s2e_env/commands/project_creation/target.py:100-124 | An empty driver file list is a TargetError. A successful result is non-empty, duplicate-free, and every element is an existing path next to the INF file. |
| Target.ExtractInfFiles | s2e_env/commands/project_creation/target.py:100-124 | The loop computes the `InfFiles` result: its errors, skipped catalogs and kept paths. |
| Target.CollectStep | s2e_env/commands/project_creation/target.py:110-122 | One listed file: a missing '.cat' is skipped, another missing file is a TargetError, and an existing one is kept in front of the rest. |
| Target.Empty | s2e_env/commands/project_creation/target.py:180-183 | `Target.empty` has no path, architecture, operating system or auxiliary files, and carries the given class. |
| Target.LastSys | s2e_env/commands/project_creation/target.py:149-152 | None iff no file ends in '.sys'. Otherwise the result is the LAST such file, since the loop overwrites its choice (despite the variable name `first_sys_file`). |
| Target.Classify | s2e_env/commands/project_creation/target.py:166-178 | TargetError iff the architecture was not determined or the custom class is not a project class. Otherwise a custom class replaces the detected one, and path, arch, OS and aux files are kept. |
| Target.FromFile | s2e_env/commands/project_creation/target.py:138-178 | A path that is not a regular file is a TargetError. A non-INF target is classified with no aux files. An INF target analyses its last '.sys' file, with the driver files as aux files, and fails when the INF yields no '.sys' or the INF extraction fails. |
| Target.InfWithoutSysFails | s2e_env/commands/project_creation/target.py:154-157 | An INF package whose files include no '.sys' leaves nothing to analyse. |
| NewProject.ProjectTypesCoverAllClasses | s2e_env/commands/new_project.py:38-44 | Every project class is reached from `PROJECT_TYPES` by one type name, and no two names map to the same class. |
| NewProject.ParseTokensSpec | s2e_env/commands/new_project.py:59-65 | The tokens parse iff each is an integer. The values come out in token order. A failure is always ArgumentTypeError. |
| NewProject.SymArgs | s2e_env/commands/new_project.py:47-67 | An empty string gives no indices. Otherwise the string is split on single spaces and each token parsed. |
| NewProject.TokenStep | s2e_env/commands/new_project.py:59-65 | One more token is either the error or one more index in front of the rest. |
| NewProject.ParseSymArgs | s2e_env/commands/new_project.py:47-67 | The loop's result equals `SymArgs` of the string. |
| NewProject.ParseRendered | s2e_env/commands/new_project.py:61-62 | Each printed integer parses back to itself. |
| NewProject.SymArgsRoundTrip | s2e_env/commands/new_project.py:47-67 | Printing a list of indices joined by spaces and parsing it gives the same list back. |
| NewProject.DoubleSpaceRejected | s2e_env/commands/new_project.py:59-65 | A non-integer token, such as the empty one between two spaces, makes the whole string an ArgumentTypeError. |
| NewProject.HandleEmptyProject | s2e_env/commands/new_project.py:77-102 | Checks `--no-target`, then the image, then the name, in that order, each a CommandError. A custom class wins. Otherwise `-t` must name a project type, and an unknown type is a CommandError. |
| NewProject.Render | s2e_env/commands/new_project.py:53-56 | The `--sym-args` text is empty exactly for the empty list of indices. |
| ImageBuild.Names | s2e_env/commands/image_build.py:159-160 | The template keys, in template order. |
| ImageBuild.GroupMembers | s2e_env/commands/image_build.py:161-164 | Exactly the names of the templates whose `image_group` is the group. |
| ImageBuild.Translation | s2e_env/commands/image_build.py:151-171 | 'all' gives every template name, and a group name gives that group's members. Otherwise a template name gives itself, and anything else is a CommandError. |
| ImageBuild.TranslateImageName | s2e_env/commands/image_build.py:151-171 | The loop over the templates computes `Translation`. |
| ImageBuild.TranslationNamesTemplates | s2e_env/commands/image_build.py:151-171 | Every name a successful translation returns is a template name. |
| ImageBuild.Lookup | s2e_env/commands/image_build.py:176 | `templates[image]` succeeds iff the name is a template name, and then gives the template of that name. |
| ImageBuild.ProductKeysOutcome | s2e_env/commands/image_build.py:174-182 | No raise iff every name is a template and no `os` section has a present but empty `product_key`. The only raises are KeyError and CommandError. |
| ImageBuild.CheckProductKeys | s2e_env/commands/image_build.py:174-182 | The loop over the image names computes `ProductKeysOutcome`. |
| ImageBuild.TranslatedNamesKnown | s2e_env/commands/image_build.py:151-182 | Names that came from a successful translation never make the product-key check raise KeyError. |
| ImageBuild.NoKeyError | s2e_env/commands/image_build.py:174-182 | Template names only: the product-key check never raises KeyError. |
| Recipe.HexDigits | s2e_env/commands/recipe.py:50-51 | `'%x' % n` is the lower-case hex digits of `n` without leading zeros, and they read back as `n`. |
| Recipe.RepeatStr | s2e_env/commands/recipe.py:52 | `s * n` has `n` times the length of `s`. |
| Recipe.ByteRun | s2e_env/commands/recipe.py:50-52 | `size` copies of one byte, each equal to it. |
| Recipe.ParseUnsigned | s2e_env/commands/recipe.py:52 | `int(s, 16)` of an unsigned hex string is the value of its digits after any '0x'. |
| Recipe.ParseHex | s2e_env/commands/recipe.py:52 | A non-empty string of lower-case hex digits is read by `int(_, 16)` as its digits' value. |
| Recipe.AppendTwoDigits | s2e_env/commands/recipe.py:52 | Two more hex digits multiply the value by 256 and add their own value. |
| Recipe.ExpandByteRun | s2e_env/commands/recipe.py:50-52 | For a byte of two hex digits, `expand_byte(b, size)` is the number whose `size` little-endian bytes all equal `b`. With size 0 it is a ValueError. |
| Recipe.ExpandByteMasks | s2e_env/commands/recipe.py:140-145 | `expand_byte(0xff, 4)` and `expand_byte(0xff, 8)` are the all-ones 32- and 64-bit masks. |
| Recipe.AllOnes | s2e_env/commands/recipe.py:50-52 | A run of `n` 0xff bytes is 256^n - 1. |
| Recipe.RecipeFile.Write | s2e_env/commands/recipe.py:58 | `fp.write(s)` appends exactly `s` to the file's text. |
| Recipe.WriteStrippedString | s2e_env/commands/recipe.py:55-59 | Appends exactly the kept lines: each non-blank line, stripped, with the prefix and a '\n'. |
| Recipe.KeptStep | s2e_env/commands/recipe.py:56-59 | One more input line adds its written form, or nothing when it strips to empty. |
| Recipe.StripLine | s2e_env/commands/recipe.py:57 | `strip()` leaves no whitespace at either end, and no line break inside a line of `splitlines`. |
| Recipe.KeptLinesSpec | s2e_env/commands/recipe.py:55-59 | Every written line is the prefix plus the stripped text of a non-blank input line, in order. There are never more written lines than input lines, and exactly as many when none is blank. |
| Recipe.KeptLinesTrimmed | s2e_env/commands/recipe.py:55-59 | Lines that are already non-blank and stripped are written unchanged. |
| Recipe.SplitUnlines | s2e_env/commands/recipe.py:56 | `splitlines` of the '\n'-terminated written text gives back the written lines. |
| Recipe.WrittenLines | s2e_env/commands/recipe.py:55-59 | When the prefix and lines hold no line break, the written text splits back into exactly the kept lines. |
| Recipe.WriteStrippedIdempotent | s2e_env/commands/recipe.py:55-59 | With no prefix, writing the output of `write_stripped_string` again writes the same text. |
| Recipe.Hexlify | s2e_env/commands/recipe.py:83 | `binascii.hexlify` gives two characters per byte (each pair reads back as its byte, see `HexPair`). |
| Recipe.Resolve | s2e_env/commands/recipe.py:76-89 | A size with no pack format, a marker the format cannot hold, or marker bytes that do not occur all raise. Otherwise every item becomes its '0x' hex form, and the `size` items at the first occurrence become the variable name (size 1) or `var[i]`. |
| Recipe.Hexed | s2e_env/commands/recipe.py:82-83 | Every item as '0x' followed by its hex digits, same length and order. |
| Recipe.Labelled | s2e_env/commands/recipe.py:85-89 | The items from the marker's index on that hold its bytes get the variable name, and all other items are kept. |
| Recipe.ResolveMarker | s2e_env/commands/recipe.py:76-89 | The in-place rewrite of the list produces the `Resolve` result. On an error the list is unchanged. |
| Recipe.HexlifyItems | s2e_env/commands/recipe.py:82-83 | The first loop replaces every item with its hex form. |
| Recipe.NameMarker | s2e_env/commands/recipe.py:85-89 | Names the marker's items. An index past the end of the list is an IndexError. |
| Recipe.NameBytes | s2e_env/commands/recipe.py:88-89 | The loop sets item `k + i` to `var[i]` for each `i < size`, and changes nothing else. |
| Recipe.PackMarkerSpec | s2e_env/commands/recipe.py:73-77 | A marker of 1, 2, 4 or 8 bytes packs to its little-endian bytes when it fits the format. Otherwise it fails: an unsupported size indexes `None`, a too-large value is a struct error. |
| Recipe.ResolveErrors | s2e_env/commands/recipe.py:76-80 | A size with no format, a marker the format cannot hold, and a marker whose bytes do not occur each raise before the list is touched. |
| Recipe.JoinSingles | s2e_env/commands/recipe.py:78 | Joining one-character items gives the items' characters in order. |
| Recipe.ResolveAssembled | s2e_env/commands/recipe.py:76-89 | On one-byte items, a marker whose bytes occur is resolved without error. Its first occurrence starts at `k`, the `size` items from `k` hold exactly its bytes and are renamed, and every other item is in hex. |
| Recipe.HexPair | s2e_env/commands/recipe.py:83 | A byte's two hex digits read back as the byte. |
| Recipe.HexItemRoundTrip | s2e_env/commands/recipe.py:83 | An item that `resolve_marker` put in hex reads back with `int(_, 16)` as the byte it replaced. |
| Recipe.PlantedMarker | s2e_env/commands/recipe.py:106-109 | The marker `assemble` plants, `expand_byte(0xbc, size)`, packs to `size` bytes of 0xbc, which are what `resolve_marker` looks for. |
| Recipe.RecipeNameFields | s2e_env/commands/recipe.py:277-282 | A recipe file name splits back at '_' into type, architecture, platform, name and register, when these hold no '_'. |
| Recipe.IntToStringInjective | s2e_env/commands/recipe.py:278 | `str` of integers is one-to-one. |
| Recipe.RegistersDistinct | s2e_env/commands/recipe.py:34-37 | The register names of one architecture are distinct. |
| Recipe.RecipeFileNameInjective | s2e_env/commands/recipe.py:277-282 | Different recipes get different file names, when architecture, platform and name hold no '_' and registers are indices from 0. |
| Recipe.RecipesDirInjective | s2e_env/commands/recipe.py:282 | Two file names under the same `recipes` directory give the same path only when they are equal. |
| Recipe.JoinRecipes | s2e_env/commands/recipe.py:282 | A relative file name under `recipes` is appended after exactly one '/'. |
| Recipe.ArchsKnown | s2e_env/commands/recipe.py:289-294 | Every architecture `handle` lists for an image has registers, a word size and no '_', and none is listed twice. |
| Recipe.Type1For | s2e_env/commands/recipe.py:299-305 | Two type-1 recipes per register of the architecture. |
| Recipe.ListRecipes | s2e_env/commands/recipe.py:284-318 | The loops of `handle` list exactly the recipes in write order: per architecture, per register, 'reg' then 'shellcode'; then the two DECREE shellcodes when 'decree' is a binary format. |
| Recipe.Type1Entries | s2e_env/commands/recipe.py:298-305 | The type-1 recipes for distinct architectures are well formed and pairwise different. |
| Recipe.FileNamePrefix | s2e_env/commands/recipe.py:278 | A recipe file name starts with 'type', its type number and '_'. |
| Recipe.TypesApart | s2e_env/commands/recipe.py:278 | Recipes of different types never share a file name. |
| Recipe.DecreeFileNames | s2e_env/commands/recipe.py:310-313 | The two DECREE recipes have file names that differ in the shellcode's number. |
| Recipe.EntriesApart | s2e_env/commands/recipe.py:277-313 | Two different recipes of the kinds `handle` writes have different file names. |
| Recipe.HandleFileNamesDistinct | s2e_env/commands/recipe.py:284-318 | Every recipe `handle` writes has a file name, and no two share one. |
| Recipe.HandleRecipesDistinct | s2e_env/commands/recipe.py:284-318 | No file `handle` opens for writing is opened twice. Every recipe gets a path, and different recipes land in different files under `recipes`. |
| NewPlugin.Stripped | s2e_env/commands/new_plugin.py:40-41 | The lines as the loop sees them: same number, each right-stripped. |
| NewPlugin.InjectPluginPath | s2e_env/commands/new_plugin.py:34-61 | When some line already names the path, the original text is returned unchanged. Otherwise the result is the state machine's lines joined by '\n' with a final '\n'. |
| NewPlugin.Advance | s2e_env/commands/new_plugin.py:40-59 | One turn of the loop keeps the output so far and the output still to come in step with the whole rewrite. |
| NewPlugin.Inserted | s2e_env/commands/new_plugin.py:56-58 | Inserting the empty line and the path line adds exactly two lines. |
| NewPlugin.RewriteDone | s2e_env/commands/new_plugin.py:56-59 | Once the path is inserted (state 3), every further line is only right-stripped. |
| NewPlugin.AnchoredShift | s2e_env/commands/new_plugin.py:47-52 | Dropping the first line shifts every anchor line (the first 's2eplugins' line at or after `add_library(`) down by one. |
| NewPlugin.RewriteFrom | s2e_env/commands/new_plugin.py:39-59 | Started in state 0 or 1, the state machine gives the stripped lines unchanged when no anchor exists. Otherwise it inserts after the first anchor. |
| NewPlugin.RewriteSpec | s2e_env/commands/new_plugin.py:39-59 | The rewritten lines are all input lines right-stripped, in order. An empty line and the indented path are inserted after the first line naming `s2eplugins` at or after the line opening `add_library(`. Without such a line, nothing is inserted. |
| NewPlugin.InsertedOnce | s2e_env/commands/new_plugin.py:39-59 | When the path was not already set and an anchor exists, exactly one output line mentions the path: the one two past the anchor. |
| SymbolLines.EqIffSameAddr | s2e_env/symbols/lines.py:52-60 | Two entries compare equal iff their addresses are equal. File and line are ignored, as is the hash, which is the address. |
| SymbolLines.LineEntries | s2e_env/symbols/lines.py:84-86 | One entry per address of a line, in order, each carrying the file and line number. |
| SymbolLines.FileEntries | s2e_env/symbols/lines.py:81-86 | The entries of one file are exactly the (file, line, address) triples its line table lists. |
| SymbolLines.Entries | s2e_env/symbols/lines.py:80-86 | The entries the constructor creates are exactly the (file, line, address) triples of the input. |
| SymbolLines.InsortSorted | s2e_env/symbols/lines.py:98-100 | `insort` into an address-sorted list keeps it sorted. |
| SymbolLines.AtAddrAppend | s2e_env/symbols/lines.py:88 | The entries at one address of a concatenation are those of each part, in order. |
| SymbolLines.AtAddrNone | s2e_env/symbols/lines.py:88 | A suffix with no entry at an address contributes nothing at that address. |
| SymbolLines.InsortParts | s2e_env/symbols/lines.py:100 | Inserting at the `bisect_right` slot splits each address's entries into those before the slot, the new one, and those after. |
| SymbolLines.AfterSlot | s2e_env/symbols/lines.py:92-100 | In a sorted list, no entry after the `bisect_right` slot of `e` has `e`'s address. |
| SymbolLines.InsortStable | s2e_env/symbols/lines.py:98-100 | `insort` puts the new entry after every entry at its address. At every address the old entries keep their order and the new one comes last. |
| SymbolLines.SortEntries | s2e_env/symbols/lines.py:88 | `list.sort()`: the result is sorted by address and a permutation of the input. It is stable, so at every address the entries keep their input order. |
| SymbolLines.LinesByAddr.constructor | s2e_env/symbols/lines.py:74-88 | The table holds exactly the input's (file, line, address) triples, sorted by address, and those at one address are in input order. |
| SymbolLines.LinesByAddr.Add | s2e_env/symbols/lines.py:98-100 | Adds exactly one entry and keeps the table sorted. The new entry comes after every older one at its address. |
| SymbolLines.LinesByAddr.Get | s2e_env/symbols/lines.py:90-104 | ValueError iff every entry lies above `addr`. Otherwise the result is the entry with the greatest address at or below `addr`, the last of several at that address. |
| SymbolFunctions.LookupSpec | s2e_env/symbols/functions.py:55-87 | `get` as written, on an ordered table: the result is the last function starting at or before `addr + 1`. It is a ValueError iff every function starts after `addr + 1`. |
| SymbolFunctions.LookupReturnsNextFunction | s2e_env/symbols/functions.py:55-87 | With one function at [0x20, 0x30), `get(0x1f)` as written returns that function although 0x1f lies outside it. The corrected lookup fails. |
| SymbolFunctions.InsortMisordersAdjacent | s2e_env/symbols/functions.py:55-83 | Under the `end < start` order, adding [0x10, 0x20) to a table holding [0x20, 0x30) puts it last, and the table is out of address order. |
| SymbolFunctions.LookupFixedSpec | s2e_env/symbols/functions.py:73-87 | Under the corrected order (`end <= start`), the lookup returns the function containing `addr` when there is one. Otherwise it returns the last function starting at or before `addr`, and it fails with ValueError iff every function starts above. |
| SymbolFunctions.InsortFixedOrdered | s2e_env/symbols/functions.py:81-83 | Under the corrected order, `insort` of a function disjoint from the table keeps it ordered. |
| SymbolFunctions.InsortFixedPlace | s2e_env/symbols/functions.py:83 | The corrected insertion point: every function before it ends by `e.start`, and every one after starts at `e.end` or later. |
| SymbolFunctions.FuncMap | s2e_env/symbols/functions.py:89-93 | `to_dict`'s keys are exactly the table's names. |
| SymbolFunctions.FuncMapValues | s2e_env/symbols/functions.py:89-93 | With distinct names, each function maps to its own (start, end). |
| SymbolFunctions.DictEntries | s2e_env/symbols/functions.py:98-99 | `from_dict` adds one entry per item, with the item's name, start and end. |
| SymbolFunctions.DictEntriesNamesDistinct | s2e_env/symbols/functions.py:96-100 | The entries built from a dictionary have distinct names. |
| SymbolFunctions.FromDictToDict | s2e_env/symbols/functions.py:89-100 | `to_dict(from_dict(d)) == d` in whatever order the insertions leave the entries: the keys are the dictionary's names and each maps to its (start, end). |
| SymbolFunctions.FunctionInfo.Add | s2e_env/symbols/functions.py:81-83 | Adds exactly the new entry. Under the corrected order, an ordered table stays ordered when the new function overlaps none. |
| SymbolFunctions.FunctionInfo.Get | s2e_env/symbols/functions.py:85-87 | On any table, the bisection lookup under the corrected order. On an ordered table: ValueError iff every function starts above `addr`; a function containing `addr` is returned, and otherwise some function starting at or before `addr`. |
| SymbolFunctions.FunctionInfo.ToDict | s2e_env/symbols/functions.py:89-93 | The loop builds `FuncMap`: with distinct names, each function maps to its (start, end). |
| SymbolFunctions.FromDict | s2e_env/symbols/functions.py:95-100 | A fresh table holding exactly one entry per item. With distinct keys, its `to_dict` maps every key of the dictionary to the key's (start, end). |
| SymbolPaths.ToSlashes | s2e_env/symbols/paths.py:33 | Same length. Every backslash becomes '/', and every other character is kept. |
| SymbolPaths.ConvertSpec | s2e_env/symbols/paths.py:29-37 | The converted path is the input with every backslash read as '/', from offset 2 when it starts with a drive 'X:' and a separator, else from offset 0. A path without a backslash is returned unchanged. |
| SymbolPaths.ConvertIdempotent | s2e_env/symbols/paths.py:29-37 | Converting twice gives the same path as converting once. |
| SymbolPaths.ConvertDrivePath | s2e_env/symbols/paths.py:33-35 | 'C:\src\a.c' becomes '/src/a.c': the drive is dropped and the components kept. |
| SymbolPaths.CandidatesSpec | s2e_env/symbols/paths.py:56-63 | The candidates are the target then its basename, plus their lower-case forms. Nothing else is tried, and there are at most four. |
| SymbolPaths.Row | s2e_env/symbols/paths.py:66-67 | One joined path per search path for a candidate, in search-path order. |
| SymbolPaths.TriesMembers | s2e_env/symbols/paths.py:65-71 | Every candidate joined to every search path is tried, and nothing else. |
| SymbolPaths.TriesPrefix | s2e_env/symbols/paths.py:65-71 | Candidate-major order: the joins up to search path `j` of candidate `i` come first. |
| SymbolPaths.FirstExisting | s2e_env/symbols/paths.py:69-70 | The index of the first existing path, with none before it existing. None iff no path exists. |
| SymbolPaths.SearchJoinedSpec | s2e_env/symbols/paths.py:65-73 | The join found exists and comes from some candidate and search path. The search raises a plain Exception iff no join exists. |
| SymbolPaths.GuessTargetSpec | s2e_env/symbols/paths.py:40-73 | The result exists and is the target itself or a candidate joined to a search path. A plain Exception iff no such join exists; an empty target is an IndexError (`target[0]`). |
| SymbolPaths.GuessTargetPath | s2e_env/symbols/paths.py:40-73 | The method computes `GuessTarget`, including its early return of an existing target. |
| SymbolPaths.TryCandidates | s2e_env/symbols/paths.py:65-73 | The nested loops compute the first existing join in candidate-major order, or the exception. |
| SymbolPaths.TryRow | s2e_env/symbols/paths.py:66-71 | The inner loop for one candidate: the first of its joins that exists is what the whole search returns, given that nothing tried before it exists; otherwise the tried list gains that candidate's row of joins, none of which exists. |
| SymbolPaths.Components | s2e_env/symbols/paths.py:90-109 | `_splitall`'s list: the components split off from the right with `os.path.split` until the head or the tail is the whole remaining path. |
| SymbolPaths.SplitAll | s2e_env/symbols/paths.py:90-109 | The loop with its `insert(0, ...)` yields exactly `Components`. |
| SymbolPaths.HeadWhole | s2e_env/symbols/paths.py:99 | The head equals the whole path only for a path of slashes (or the empty path). |
| SymbolPaths.HeadShorter | s2e_env/symbols/paths.py:106 | Unless the path is all slashes, its head is strictly shorter, so `_splitall` terminates. |
| SymbolPaths.HeadEmpty | s2e_env/symbols/paths.py:102 | An empty head leaves the whole path as the tail. |
| SymbolPaths.ComponentsSpec | s2e_env/symbols/paths.py:90-109 | The first component is the root of an absolute path and the others hold no '/'. Joining them gives the path back when it has no doubled slash. |
| SymbolPaths.SplitAt | s2e_env/symbols/paths.py:98 | `os.path.split` at the last '/': the tail is what follows it, and the head keeps an all-slash root or loses its trailing slashes. |
| SymbolPaths.ComponentsExample | s2e_env/symbols/paths.py:92 | '/a/b/c' splits into '/', 'a', 'b', 'c', the example the source documents. |
| SymbolPaths.DirnameShorter | s2e_env/symbols/paths.py:85 | `dirname` of a path that is neither empty nor all slashes is a strictly shorter prefix. |
| SymbolPaths.DoubleSlashHangs | s2e_env/symbols/paths.py:81-85 | A search path '//' with nothing found never reaches '/': the walk as written hangs, because `dirname('//') == '//'`. |
| SymbolPaths.UsrSrcHangs | s2e_env/symbols/paths.py:76-87 | The search path '//usr/src' with no source present makes `_guess_rel_path` as written loop forever. |
| SymbolPaths.AncestorsSpec | s2e_env/symbols/paths.py:81-85 | Every directory the corrected walk tests is a prefix of its start, neither empty nor all slashes, and shorter than the one before, so the walk ends. |
| SymbolPaths.FirstHitSpec | s2e_env/symbols/paths.py:81-84 | The first directory of the list that holds the path, with none before it holding it. Nothing iff no directory holds it. |
| SymbolPaths.FoundDirStep | s2e_env/symbols/paths.py:81-85 | One step of the walk: test `cur`, and otherwise go on from its strictly shorter parent. |
| SymbolPaths.SingleRoot | s2e_env/symbols/paths.py:81 | Without a leading '//', the only all-slash path the walk can reach is '/'. |
| SymbolPaths.DirnameNoDoubleSlash | s2e_env/symbols/paths.py:85 | The parent of a path not starting with '//' does not start with '//' either. |
| SymbolPaths.WalkAgrees | s2e_env/symbols/paths.py:79-85 | For every search path not starting with '//', the walk as written terminates with the corrected walk's answer. |
| SymbolPaths.FirstDirSpec | s2e_env/symbols/paths.py:77-87 | The directory found comes from some search path's walk. Nothing iff every search path's walk finds nothing. |
| SymbolPaths.FoundPathSpec | s2e_env/symbols/paths.py:76-87 | The path found exists and is the relative path joined to a search path or one of its parents. Nothing is found iff no such directory holds it. |
| SymbolPaths.GuessRelSpec | s2e_env/symbols/paths.py:76-87 | What `_guess_rel_path` returns is the normalised form of an existing path. |
| SymbolPaths.GuessRelPath | s2e_env/symbols/paths.py:76-87 | The method computes the corrected `_guess_rel_path` result, normalised. |
| SymbolPaths.FindRelPath | s2e_env/symbols/paths.py:77-85 | The two loops (each search path, then its parents) find the first holding directory in that order. |
| SymbolPaths.FirstDirPrefix | s2e_env/symbols/paths.py:77-84 | Once a prefix of the search paths finds a directory, the rest are not consulted. |
| SymbolPaths.FirstSuffixSpec | s2e_env/symbols/paths.py:139-145 | A suffix found resolves to the normalised form of an existing file. Nothing iff no suffix is found under any search path. |
| SymbolPaths.GuessSourceSpec | s2e_env/symbols/paths.py:112-151 | The result is the path as given or the normalised form of an existing file. An existing path comes back as given. |
| SymbolPaths.UnresolvedKept | s2e_env/symbols/paths.py:145-151 | A path that no search path or parent holds, under any of the probed relative forms, comes back unchanged. |
| SymbolPaths.GuessSourceFilePath | s2e_env/symbols/paths.py:112-151 | The method, with its loop over the suffixes of an absolute path, computes `GuessSource`. |
| CaseInsensitive.LowerKeys | s2e_env/infparser/case_insensitive_dict.py:90 | The trie's keys: each stored key lower-cased. |
| CaseInsensitive.IndexOf | s2e_env/infparser/case_insensitive_dict.py:86 | The position of a key that folds to `f`. -1 iff none does. |
| CaseInsensitive.Lookup | s2e_env/infparser/case_insensitive_dict.py:85-86 | `d[key]`: KeyError iff no key equals `key` ignoring case. Otherwise the value stored under that key. |
| CaseInsensitive.Store | s2e_env/infparser/case_insensitive_dict.py:88-91 | `d[key] = value`: the folded keys gain the key's folded form and nothing else. Keys stay folded and distinct ignoring case. |
| CaseInsensitive.StoreLookup | s2e_env/infparser/case_insensitive_dict.py:85-91 | After a store, the key (in any case) finds the new value, and every other key finds what it found before. |
| CaseInsensitive.IndexOfUpdate | s2e_env/infparser/case_insensitive_dict.py:91 | Replacing a value leaves every key's position unchanged. |
| CaseInsensitive.Remove | s2e_env/infparser/case_insensitive_dict.py:74-77 | `del d[key]`: KeyError iff the key is absent ignoring case. Otherwise exactly its entry goes. |
| CaseInsensitive.RemoveKeys | s2e_env/infparser/case_insensitive_dict.py:74-77 | Removal keeps the keys folded and distinct, and drops exactly the removed key's folded form. |
| CaseInsensitive.RemoveLookup | s2e_env/infparser/case_insensitive_dict.py:74-86 | After removal, every other key still finds its value. |
| CaseInsensitive.UniqueIndex | s2e_env/infparser/case_insensitive_dict.py:35-36 | Among keys distinct ignoring case, the one folding to `f` is the one the lookup finds. |
| CaseInsensitive.LowerKeysCount | s2e_env/infparser/case_insensitive_dict.py:82-83 | With keys distinct ignoring case, there is one trie key per entry. |
| CaseInsensitive.PrefixedKeysOf | s2e_env/infparser/case_insensitive_dict.py:96-97 | Exactly the lower-case keys that start with the lower-cased prefix. |
| CaseInsensitive.CaseInsensitiveDict.constructor | s2e_env/infparser/case_insensitive_dict.py:62-69 | An empty dictionary with an empty trie, the invariant holding. |
| CaseInsensitive.CaseInsensitiveDict.Contains | s2e_env/infparser/case_insensitive_dict.py:71-94 | `in` and `has_key` hold iff the lower-cased key is a stored key lower-cased. |
| CaseInsensitive.CaseInsensitiveDict.Get | s2e_env/infparser/case_insensitive_dict.py:85-86 | Succeeds iff the lower-cased key is in the trie, and then gives the trie's value. Otherwise KeyError. |
| CaseInsensitive.CaseInsensitiveDict.Len | s2e_env/infparser/case_insensitive_dict.py:82-83 | The number of keys that differ ignoring case, which equals the trie's size. |
| CaseInsensitive.CaseInsensitiveDict.PrefixedKeys | s2e_env/infparser/case_insensitive_dict.py:96-97 | Read from the trie, it agrees with `PrefixedKeysOf` the entries. |
| CaseInsensitive.CaseInsensitiveDict.Set | s2e_env/infparser/case_insensitive_dict.py:88-91 | Both halves get the value under the key. The dictionary and the trie keep mirroring each other. |
| CaseInsensitive.CaseInsensitiveDict.Del | s2e_env/infparser/case_insensitive_dict.py:74-77 | KeyError iff the key is absent, with nothing changed. Otherwise the key leaves both halves, which keep mirroring each other. |
| CaseInsensitive.StoreValid | s2e_env/infparser/case_insensitive_dict.py:88-91 | A store keeps the dictionary and the trie mirroring each other. |
| CaseInsensitive.RemoveValid | s2e_env/infparser/case_insensitive_dict.py:74-77 | A removal keeps the dictionary and the trie mirroring each other. |
| InfParser.SectionName | s2e_env/infparser/parser.py:99-101 | `SECTION_PATTERN.search(line).group(1)`: a section name found is never empty. |
| InfParser.Save | s2e_env/infparser/parser.py:102-129 | A named section is stored under its name, replacing one of the same name ignoring case. An unnamed one is dropped. |
| InfParser.ParseString | s2e_env/infparser/parser.py:77-131 | The loop over the lines builds a fresh, valid dictionary whose entries are `Parse` of the text. |
| InfParser.ParseLinesWellFormed | s2e_env/infparser/parser.py:86-125 | Reading lines keeps the section table and the current section's data well formed. |
| InfParser.ParseFolded | s2e_env/infparser/parser.py:84-129 | The result never holds two sections whose names differ only in case. |
| InfParser.ParseLinesAppend | s2e_env/infparser/parser.py:86-125 | Reading two runs of lines is reading the first, then the second. |
| InfParser.CommentLineIgnored | s2e_env/infparser/parser.py:87-91 | A blank line or one starting with ';' after stripping changes nothing, wherever it stands. |
| InfParser.LinesBeforeFirstSection | s2e_env/infparser/parser.py:107-109 | Lines that are not section headers before the first header are ignored. |
| InfParser.ParseHeaderLine | s2e_env/infparser/parser.py:99-105 | `[name]` saves the current section (if named) and opens an empty one called `name`. |
| InfParser.ParseEntryLine | s2e_env/infparser/parser.py:111-125 | `key=value` in a named section stores the stripped, unquoted value under the stripped, unquoted key. |
| InfParser.LastAssigned | s2e_env/infparser/parser.py:125 | The index of the last assignment whose key equals `k` ignoring case, with none after it. -1 iff none. |
| InfParser.StoreAllLookup | s2e_env/infparser/parser.py:125 | After a run of assignments, a key holds the value of its last assignment, or what it held before when none assigned it. |
| InfParser.ParseEntryLines | s2e_env/infparser/parser.py:111-125 | In a named section, `key=value` lines are the same assignments to its data, in order. |
| InfParser.SectionTextLines | s2e_env/infparser/parser.py:82 | No line of a written-out section holds a line break, so splitting the text gives the lines back. |
| InfParser.ParseSectionText | s2e_env/infparser/parser.py:77-131 | A section written out as text parses back to a section of that name whose data is the pairs assigned in order. A repeated key keeps its last value. |
| InfVersions.Field | s2e_env/infparser/version.py:51-58 | `int(field, base)` of a dot field, None when missing or empty. The only failure is the ValueError of a non-numeric field. |
| InfVersions.Parse | s2e_env/infparser/version.py:33-62 | None, or a decoration not starting with 'nt' ignoring case, gives no fields. Otherwise the lower-cased dot fields are the architecture, major and minor (decimal), product type and suite mask (hex), and 'ntx86' becomes 'nt'. |
| InfVersions.ArchitectureField | s2e_env/infparser/version.py:44-50 | The architecture of a decoration starting with 'nt' starts with 'nt' too. |
| InfVersions.MatchesFull | s2e_env/infparser/version.py:64-75 | With both versions full, `matches` holds iff the architectures are compatible and the desired version is not older. The corrected predicate agrees there. |
| InfVersions.UnversionedMatches | s2e_env/infparser/version.py:64-83 | A version with no fields matches any version and is matched by any. |
| InfVersions.MatchesReflexive | s2e_env/infparser/version.py:64-83 | Every version matches itself, as written and corrected. |
| InfVersions.MatchesDropMinorFlips | s2e_env/infparser/version.py:72-81 | As written, 6.1 does not match a desired 5.1 but 6 does. Dropping a minor flips the verdict because the missing-minor test compares the majors the other way round. |
| InfVersions.MatchesFixedByMajor | s2e_env/infparser/version.py:72-81 | Corrected, when the majors differ the verdict depends on the majors alone, whatever the minors: the desired major must be the later one. |
| InfVersions.ParseDecoration | s2e_env/infparser/version.py:43-62 | Parsing a written-out `arch.major.minor` gives its fields back. |
| InfVersions.PrintDecoration | s2e_env/infparser/version.py:85-96 | Printing a parsed `arch.major.minor` writes the architecture, a space and 'major.minor'. |
| InfVersions.DecorationLower | s2e_env/infparser/version.py:43-44 | A written-out decoration is its own lower-case form and starts with 'nt'. |
| InfVersions.DecorationSplit | s2e_env/infparser/version.py:48 | A decoration splits at its dots into the architecture and the two numbers. |
| InfDevice.FieldValue | s2e_env/infparser/device.py:72-85 | An id is 0 before any field. Each field containing the marker then overwrites it with the hex number after the marker, and such a field without a number there is a ValueError. |
| InfDevice.Updated | s2e_env/infparser/device.py:78-85 | A field leaves the id alone unless it contains the marker. |
| InfDevice.FieldValueNext | s2e_env/infparser/device.py:77-85 | One turn of the loop: field `i` updates the id read from the fields before it. |
| InfDevice.LastWith | s2e_env/infparser/device.py:77-85 | The last field containing the marker, with none after it containing it. -1 iff none does. |
| InfDevice.FieldValueSpec | s2e_env/infparser/device.py:72-85 | An id is the number after its marker in the LAST field containing the marker, or 0 when none does. It is a ValueError iff some such field has no number after the marker. |
| InfDevice.FieldValueFailPrefix | s2e_env/infparser/device.py:77-85 | Once a prefix of the fields gives a bad id, the whole id is a ValueError. |
| InfDevice.StripQuotes | s2e_env/infparser/device.py:67-68 | A hardware id quoted at both ends is the result with the two quotes put back. An unquoted id is kept as it is. |
| InfDevice.StripQuotesKeepsBackslash | s2e_env/infparser/device.py:67-70 | Removing the quotes keeps the backslash that separates the enumerator. |
| InfDevice.PciKindOf | s2e_env/infparser/device.py:72-85 | A PCI kind. The only failures are a ValueError from an id and an IndexError when the unquoted id has no backslash. |
| InfDevice.PciIdsOf | s2e_env/infparser/device.py:70-85 | The four PCI ids read from the '&'-separated fields give a PCI kind. The only failure is a ValueError. |
| InfDevice.UsbKindOf | s2e_env/infparser/device.py:108-118 | A USB kind whose subsystem id is 0. The only failures are a ValueError from an id and an IndexError without a backslash. |
| InfDevice.PciKind | s2e_env/infparser/device.py:64-85 | `PCIDevice.__init__` computes `PciKindOf` of the hardware id. |
| InfDevice.PciIdsFail | s2e_env/infparser/device.py:77-85 | A bad value of any one of the four ids makes the whole constructor a ValueError. |
| InfDevice.PciIds | s2e_env/infparser/device.py:77-85 | The loop over the fields updates all four ids exactly as `FieldValue` says. |
| InfDevice.UsbKind | s2e_env/infparser/device.py:106-118 | `USBDevice.__init__`'s loop computes `UsbKindOf`. |
| InfDevice.Create | s2e_env/infparser/device.py:33-47 | A hardware id without a backslash gives a plain device and never fails. The result carries the name, install section, hardware id and `version`, with no install information. The only failure is a ValueError from an id. |
| InfDevice.CreateDevice | s2e_env/infparser/device.py:33-47 | The method running the id loops computes `Create`. |
| InfDevice.CreateKind | s2e_env/infparser/device.py:37-44 | The class chosen depends only on the enumerator, PCI before USB. A device of that class results whenever its ids parse. |
| InfDevice.GetS2eCfg | s2e_env/infparser/device.py:50-96 | Only PCI devices have a configuration, and other devices raise. `ssid`·65536 + `ssvid` is the subsystem id, with `ssvid` in [0, 65536). |
| InfDevice.S2eCfgHalves | s2e_env/infparser/device.py:94-95 | A 32-bit SUBSYS_ value splits into two 16-bit halves. |
| InfFile.FromString | s2e_env/infparser/file.py:49-55 | The sections of the text: section names folded and distinct ignoring case. |
| InfFile.IsStringKey | s2e_env/infparser/file.py:57-59 | True iff the key starts and ends with '%'. An empty key is an IndexError. |
| InfFile.ToStringKey | s2e_env/infparser/file.py:61-64 | The text between the first and second '%' holds no '%'. |
| InfFile.ToStringKeyOf | s2e_env/infparser/file.py:61-64 | A key written '%name%...' names the string `name`. |
| InfFile.GetString | s2e_env/infparser/file.py:66-76 | A key that is not a string key comes back unchanged. Failures: IndexError for an empty key, or KeyError when there is no 'strings' section. |
| InfFile.GetStringOf | s2e_env/infparser/file.py:66-76 | With a 'strings' section, '%name%...' resolves to the string `name`, or '' when it is undefined. |
| InfFile.ExpandKey | s2e_env/infparser/file.py:80-91 | `expand_key` as written, with the greedy `(%.+%)`. The only failure is the KeyError of a missing 'strings' section. |
| InfFile.ExpandKeyPlain | s2e_env/infparser/file.py:84-91 | As written, a key without '%' is left alone. |
| InfFile.ExpandTokens | s2e_env/infparser/file.py:78-91 | `expand_key` as its comment describes it ("one or more %xxx% string tokens"). The only failure is the KeyError of a missing 'strings' section. |
| InfFile.ExpandTokensPlain | s2e_env/infparser/file.py:78-91 | A key without '%' is left alone. |
| InfFile.ExpandTokensToken | s2e_env/infparser/file.py:78-91 | Expansion goes token by token: the text before the first token is kept, the token becomes its string, and the rest is expanded in turn. |
| InfFile.TokenPositions | s2e_env/infparser/file.py:84 | Where the lazy search finds the first token of `text%name%rest`. |
| InfFile.ExpandKeyWholeLine | s2e_env/infparser/file.py:84-91 | As written, a line starting and ending with '%' is one token: the whole line becomes the string named between its first two '%'. |
| InfFile.GreedyWhole | s2e_env/infparser/file.py:33 | The greedy search on a line starting and ending with '%' spans the whole line. |
| InfFile.ExpandKeySwallowsSecondToken | s2e_env/infparser/file.py:80-91 | As written, a two-token line is replaced as a whole by the first token's string, losing the text between and the second token. The token-by-token expansion keeps them. |
| InfFile.ExpandTokensLast | s2e_env/infparser/file.py:78-91 | A line whose only token ends it expands to its text followed by that token's string. |
| InfFile.ExpandKeyExample | s2e_env/infparser/file.py:80-91 | With a = 'x' and b = 'y', '%a% and %b%' gives 'x' as written and 'x and y' as intended. |
| InfFile.VersionEntry | s2e_env/infparser/file.py:96-106 | `get_class`/`get_catalog`: present iff [version] exists and defines the entry, and then its value. A KeyError becomes None. |
| InfFile.Union | s2e_env/infparser/file.py:222-223 | `|=` over the lists: succeeds iff every list succeeds, and otherwise fails with one of their errors. |
| InfFile.UnionSpec | s2e_env/infparser/file.py:222-223 | The union holds exactly the members of every result. |
| InfFile.UnionFailPrefix | s2e_env/infparser/file.py:222-223 | Once a prefix has failed, the whole fails the same way. |
| InfFile.Collect | s2e_env/infparser/file.py:208-225 | Succeeds iff every result does, and otherwise fails with one of their errors. |
| InfFile.CollectKeys | s2e_env/infparser/file.py:225 | The keys collected are exactly those of the `Some` results. |
| InfFile.CollectValues | s2e_env/infparser/file.py:225 | With distinct keys, each `Some` result is found under its own key. |
| InfFile.FileName | s2e_env/infparser/file.py:243-244 | The first comma field of an entry, lower-cased and expanded. The only failure is a missing 'strings' section. File names are expanded with the corrected `ExpandTokens`, not the greedy `expand_key` of file.py:244 (see "## Left out"). |
| InfFile.GetFilesOf | s2e_env/infparser/file.py:231-246 | '@name' gives exactly {name}, and a missing section gives no files. File names are expanded with the corrected `ExpandTokens`, not the greedy `expand_key` of file.py:244 (see "## Left out"). |
| InfFile.FilesOfSpec | s2e_env/infparser/file.py:238-246 | A listed section names a file exactly when one of its entries does. It fails if any entry fails. File names are expanded with the corrected `ExpandTokens`, not the greedy `expand_key` of file.py:244 (see "## Left out"). |
| InfFile.GetFilesError | s2e_env/infparser/file.py:231-246 | The only exception `get_files` lets through is the KeyError of a missing 'strings' section. |
| InfFile.GetFiles | s2e_env/infparser/file.py:231-246 | The loop adding one file per entry computes `GetFilesOf`. File names are expanded with the corrected `ExpandTokens`, not the greedy `expand_key` of file.py:244 (see "## Left out"). |
| InfFile.LastSuffix | s2e_env/infparser/file.py:214-216 | The last suffix in the list that occurs in the name, without its dot. None iff none occurs. |
| InfFile.ContainsPrefixOf | s2e_env/infparser/file.py:214-216 | An occurrence of a string is an occurrence of each of its prefixes. |
| InfFile.SuffixVersionSpec | s2e_env/infparser/file.py:213-216 | A name has a version iff it contains '.nt'. The longer suffixes, tried later, win ('.ntamd64' gives 'ntamd64'), and '.nt' alone gives 'nt'. |
| InfFile.Suffix | s2e_env/infparser/file.py:214-216 | The loop over the four suffixes computes `LastSuffix`. |
| InfFile.InstallInfoOf | s2e_env/infparser/file.py:209-225 | The version is the name's suffix version. Without 'copyfiles' there are no copied files. File names are expanded with the corrected `ExpandTokens`, not the greedy `expand_key` of file.py:244 (see "## Left out"). |
| InfFile.InstallInfoFiles | s2e_env/infparser/file.py:219-223 | The copied files are exactly those of the lists `CopyFiles` names. File names are expanded with the corrected `ExpandTokens`, not the greedy `expand_key` of file.py:244 (see "## Left out"). |
| InfFile.CopyFiles | s2e_env/infparser/file.py:219-223 | The loop over the lists computes their union. File names are expanded with the corrected `ExpandTokens`, not the greedy `expand_key` of file.py:244 (see "## Left out"). |
| InfFile.InstallInfoFor | s2e_env/infparser/file.py:209-225 | One turn of the outer loop computes the section's install information. File names are expanded with the corrected `ExpandTokens`, not the greedy `expand_key` of file.py:244 (see "## Left out"). |
| InfFile.InfoIfPrefixed | s2e_env/infparser/file.py:208 | A section is described iff its name starts with the lower-cased prefix and its information can be computed. |
| InfFile.GetInstallInfoKeys | s2e_env/infparser/file.py:201-227 | The sections described are exactly `prefixed_keys(key)`. |
| InfFile.GetInstallInfoValues | s2e_env/infparser/file.py:201-227 | Each section described gets its own install information. File names are expanded with the corrected `ExpandTokens`, not the greedy `expand_key` of file.py:244 (see "## Left out"). |
| InfFile.GetInstallInfo | s2e_env/infparser/file.py:201-227 | The loop over the prefixed sections computes `GetInstallInfoOf`. File names are expanded with the corrected `ExpandTokens`, not the greedy `expand_key` of file.py:244 (see "## Left out"). |
| InfFile.InstallStep | s2e_env/infparser/file.py:208-225 | One more section is skipped, described, or the failure to describe it. File names are expanded with the corrected `ExpandTokens`, not the greedy `expand_key` of file.py:244 (see "## Left out"). |
| InfFile.InstallNext | s2e_env/infparser/file.py:208-225 | One pass of the section loop: a section whose name does not start with the lower-cased key leaves the dict as it was; otherwise the dict gains that section's install information or the loop stops with the error, exactly the loop's state after one more section. File names are expanded with the corrected `ExpandTokens`, not the greedy `expand_key` of file.py:244 (see "## Left out"). |
| InfFile.StoreAll | s2e_env/infparser/file.py:190 | Storing every pair succeeds iff every result does. The keys stay folded and distinct. |
| InfFile.StoreAllKeys | s2e_env/infparser/file.py:190 | The keys of the dictionary are exactly those of the stored pairs, ignoring case. |
| InfFile.StoreAllLookup | s2e_env/infparser/file.py:190 | A key finds the value of the last pair stored under it. |
| InfFile.StoreKeyedKeys | s2e_env/infparser/file.py:176-190 | Storing one result per line keeps exactly the section's keys. |
| InfFile.StoreKeyedLookup | s2e_env/infparser/file.py:176-190 | With the section's keys distinct, each line's result is found under its key. |
| InfFile.ModelOfSpec | s2e_env/infparser/file.py:177-189 | A model line's device is named by the expanded key, installed by the first comma field, identified by the second, for the requested version. It carries what `get_install_info` reports for its install section. The device name is expanded with the corrected `ExpandTokens`, not the greedy `expand_key` of file.py:177 (see "## Left out"). |
| InfFile.ModelOfError | s2e_env/infparser/file.py:177-189 | A model line fails only on a missing 'strings' section or a malformed PCI/USB id. |
| InfFile.GetModelsOf | s2e_env/infparser/file.py:165-192 | A missing '<key>.<version>' section gives no devices. The result's keys are folded and distinct. The device name is expanded with the corrected `ExpandTokens`, not the greedy `expand_key` of file.py:177 (see "## Left out"). |
| InfFile.GetModelsSpec | s2e_env/infparser/file.py:165-192 | The devices are keyed exactly by the lines of the models section, and each line's device is found under its key. The device name is expanded with the corrected `ExpandTokens`, not the greedy `expand_key` of file.py:177 (see "## Left out"). |
| InfFile.GetModelsError | s2e_env/infparser/file.py:165-192 | `get_models` fails only on a missing 'strings' section or a malformed PCI/USB id. |
| InfFile.Model | s2e_env/infparser/file.py:177-190 | The device of one line, running the id and install-section loops, equals `ModelOf`. The device name is expanded with the corrected `ExpandTokens`, not the greedy `expand_key` of file.py:177 (see "## Left out"). |
| InfFile.GetModels | s2e_env/infparser/file.py:165-192 | The loop over the models section computes `GetModelsOf`. The device name is expanded with the corrected `ExpandTokens`, not the greedy `expand_key` of file.py:177 (see "## Left out"). |
| InfFile.ManufacturerNameSpec | s2e_env/infparser/file.py:129-133 | An empty key is an IndexError. A key that is not a string key names itself. A string key that resolves to '' is skipped. |
| InfFile.ManufacturerNameError | s2e_env/infparser/file.py:129-133 | A manufacturer line fails only on an empty key or a missing 'strings' section. |
| InfFile.ModelSectionsSpec | s2e_env/infparser/file.py:139-153 | The models section is the first comma field, and each later field is a stripped version, in order. The unversioned section is listed, last, exactly when there are no versions or that section exists. |
| InfFile.ModelSectionsSingle | s2e_env/infparser/file.py:141-143 | A line without a comma names one section with no version. |
| InfFile.Versions | s2e_env/infparser/file.py:145-147 | The loop yields one (section, stripped version) pair per later comma field, in order. |
| InfFile.StoreNamedKeys | s2e_env/infparser/file.py:126-153 | The names stored are those of the lines not skipped, ignoring case. |
| InfFile.StoreNamedLookup | s2e_env/infparser/file.py:126-153 | A name no other line shares (ignoring case) finds its own line's value. |
| InfFile.StoreNamedError | s2e_env/infparser/file.py:126-153 | Only a name can fail. |
| InfFile.GetManufacturersOf | s2e_env/infparser/file.py:118-155 | No [manufacturer] section gives an empty dictionary. The result's keys are folded and distinct. |
| InfFile.GetManufacturersSpec | s2e_env/infparser/file.py:118-155 | The manufacturers are the names of the lines not skipped, ignoring case. A name no other line shares lists its own line's models sections. |
| InfFile.GetManufacturersError | s2e_env/infparser/file.py:118-155 | `get_manufacturers` fails only on an empty key or a missing 'strings' section. |
| InfFile.Manufacturer | s2e_env/infparser/file.py:126-153 | The entry of one line, running the versions loop. |
| InfFile.GetManufacturers | s2e_env/infparser/file.py:118-155 | Nothing without [manufacturer], else the loop over its lines, computes `GetManufacturersOf`. |
| InfFile.StoreManufacturers | s2e_env/infparser/file.py:126-153 | The loop over the lines of [manufacturer] stores each named line's models sections in turn. |
| BasicBlocks.Encode | s2e_env/commands/code_coverage/basic_block.py:68-76 | A block is written as an object with exactly the keys start_addr, end_addr and function, and the decoder turns that object back into the same block. |
| BasicBlocks.Decode | s2e_env/commands/code_coverage/basic_block.py:89-93 | An object without start_addr comes back unchanged, and only such an object does; a block is built only from an object whose three fields hold its addresses and function name; a failure is a KeyError or TypeError. |
| BasicBlocks.EncodeAll | s2e_env/commands/code_coverage/basic_block.py:215-231 | The saved list has one object per block. |
| BasicBlocks.DecodeAll | s2e_env/commands/code_coverage/basic_block.py:89-93 | Loading a list succeeds with one decoded value per object, each the object's own decoding; a failure is the failure of one of the objects. |
| BasicBlocks.DecodeEncodeAll | s2e_env/commands/code_coverage/basic_block.py:62-93 | Loading a saved .bblist gives back the saved blocks, in order. |
| BasicBlocks.CachedBasicBlocks | s2e_env/commands/code_coverage/basic_block.py:169-202 | A missing .bblist, or one older than the target, yields None; otherwise a successful load always yields a block list. |
| BasicBlocks.CachedSaved | s2e_env/commands/code_coverage/basic_block.py:169-231 | A .bblist saved no earlier than the target was built is reused as it is: the cache returns exactly the saved blocks. |
| BasicBlocks.InnerBlockMissed | s2e_env/commands/code_coverage/basic_block.py:255-259 | The endpoint test as written rejects a block lying strictly inside a TB, although the comment above it says such a block is covered. |
| BasicBlocks.OverlapsIsIntersection | s2e_env/commands/code_coverage/basic_block.py:255-259 | The corrected test holds exactly when the two closed address ranges intersect, and it accepts everything the endpoint test accepts. |
| BasicBlocks.Hit | s2e_env/commands/code_coverage/basic_block.py:254-259 | The blocks one TB covers are exactly the listed blocks that it overlaps. |
| BasicBlocks.DuplicateTbAddsNothing | s2e_env/commands/code_coverage/basic_block.py:253-259 | A TB that already appears in a state's list covers no new block. |
| BasicBlocks.AddTo | s2e_env/commands/code_coverage/basic_block.py:243-259 | Adding blocks to the per-state sets creates the state's key only when something is added, grows that state's set by them, and leaves every other state unchanged. |
| BasicBlocks.CoverageSpec | s2e_env/commands/code_coverage/basic_block.py:233-261 | A state has an entry only when it has a covered block; a block is covered in a state exactly when it is one of the module's blocks and some TB of one of that state's files overlaps it. |
| BasicBlocks.BasicBlockCoverage | s2e_env/commands/code_coverage/basic_block.py:233-261 | The loops over TB files, TBs and blocks compute exactly the per-state coverage characterised by CoverageSpec. Blocks are identified by value, not by object (see "## Left out"). |
| BasicBlocks.AddBlocks | s2e_env/commands/code_coverage/basic_block.py:254-259 | The loop over the blocks adds to the state's set exactly the blocks the TB overlaps. |
| BasicBlocks.DistinctBound | s2e_env/commands/code_coverage/basic_block.py:146-147 | A list has no more distinct blocks than entries. |
| BasicBlocks.CoveredBound | s2e_env/commands/code_coverage/basic_block.py:146-147 | Every covered block, over all states, is one of the module's blocks, so the covered count never exceeds the total. |
| BasicBlocks.ModuleStatsSpec | s2e_env/commands/code_coverage/basic_block.py:113-161 | The statistics fail exactly when there are no blocks or no TB overlaps any block; otherwise the total is the number of blocks and the covered count lies between 1 and the total. Covered blocks are counted as distinct values, not objects (see "## Left out"). |
| RadareBlocks.Splits | s2e_env/commands/code_coverage/r2_basic_block.py:57-61 | The split points are increasing indices of calls that are not the last instruction. |
| RadareBlocks.ScanSpec | s2e_env/commands/code_coverage/r2_basic_block.py:57-61 | After the loop, one closed block has been emitted per split point, each running from the previous return address to the end of its call. |
| RadareBlocks.NoCallSingleBlock | s2e_env/commands/code_coverage/r2_basic_block.py:34-66 | Without a splitting call the result is the whole Radare block as one block, or nothing if it is empty, and the code as written and the corrected split agree. |
| RadareBlocks.SplitAsWrittenSpec | s2e_env/commands/code_coverage/r2_basic_block.py:34-66 | Every block carries the function's name, and the result holds one block per split call plus at most one final block. |
| RadareBlocks.SplitBasicBlock | s2e_env/commands/code_coverage/r2_basic_block.py:34-66 | The loop and the final test compute exactly the split as written. |
| RadareBlocks.TailAfterCallDropped | s2e_env/commands/code_coverage/r2_basic_block.py:59-64 | For a call followed by a return, the code as written loses the block after the call, and the corrected split keeps it. |
| RadareBlocks.InstWithinBlock | s2e_env/commands/code_coverage/r2_basic_block.py:52-55 | In a contiguous Radare block every instruction ends within the block. |
| RadareBlocks.SplitFixedTiles | s2e_env/commands/code_coverage/r2_basic_block.py:34-66 | The corrected split tiles a contiguous Radare block: its blocks start at the block's offset, each ends where the next starts, the last ends at the block's end, and none is empty. |
| RadareBlocks.OffsetsIncrease | s2e_env/commands/code_coverage/r2_basic_block.py:57-61 | In a contiguous block an instruction starts before any later one ends. |
| LineCoverage.AddRange | s2e_env/commands/code_coverage/lcov.py:176-177 | Counting one TB adds one to every address in [start, end) and changes nothing else; the keys gain exactly those addresses. |
| LineCoverage.AddTbsSpec | s2e_env/commands/code_coverage/lcov.py:175-177 | After a list of TBs each address's count grows by the number of TBs that hold it, and it is a key exactly when it was one or some TB holds it. |
| LineCoverage.AddrCountsSpec | s2e_env/commands/code_coverage/lcov.py:146-179 | Each address counts the TBs, over all files, whose half-open range holds it, and only such addresses are keys. |
| LineCoverage.EmptyTbCountsNothing | s2e_env/commands/code_coverage/lcov.py:176-177 | A TB whose end is not after its start changes no count. |
| LineCoverage.GetAddrCoverage | s2e_env/commands/code_coverage/lcov.py:146-179 | The loops over files, TBs and addresses compute exactly the counts characterised by AddrCountsSpec. |
| LineCoverage.CountRange | s2e_env/commands/code_coverage/lcov.py:176-177 | The loop over one TB's addresses computes exactly AddRange. |
| LineCoverage.AddLinesSpec | s2e_env/commands/code_coverage/line_info/jsoninfo.py:56-64 | After a file's pairs, its lines are the lines it had plus every listed line, and each line's count grows by the sum of the counts of its executed addresses. |
| LineCoverage.UnexecutedLineIsZero | s2e_env/commands/code_coverage/line_info/jsoninfo.py:60-64 | A listed line none of whose addresses was executed is reported with count 0. |
| LineCoverage.ParseInfoKeys | s2e_env/commands/code_coverage/line_info/jsoninfo.py:48-54 | There is one count map per listed file path and no other. |
| LineCoverage.ParseInfoSpec | s2e_env/commands/code_coverage/line_info/jsoninfo.py:29-66 | With each path listed once, a file's map holds exactly its listed lines, each with the sum of its addresses' counts. |
| LineCoverage.ParseInfo | s2e_env/commands/code_coverage/line_info/jsoninfo.py:29-66 | The loops compute exactly the per-file counts characterised by ParseInfoKeys and ParseInfoSpec. |
| LineCoverage.CountLines | s2e_env/commands/code_coverage/line_info/jsoninfo.py:56-64 | The loop over one file's pairs computes exactly AddLines. |
| LineCoverage.NonZeroSpec | s2e_env/commands/code_coverage/lcov.py:208-219 | LH is the number of lines with a non-zero count, so LH is at most LF, with equality exactly when every line was hit. |
| LineCoverage.CountFile | s2e_env/commands/code_coverage/lcov.py:208-219 | The per-file counters are LH and LF as characterised by NonZeroSpec. |
| LineCoverage.RecordsSpec | s2e_env/commands/code_coverage/lcov.py:199-220 | A record is written exactly for each file whose source exists, holding its lines with LH the non-zero lines and LF all of them; there are never more records than files. |
| LineCoverage.SaveCoverageInfo | s2e_env/commands/code_coverage/lcov.py:181-222 | The loop over the files writes exactly the records characterised by RecordsSpec. |
| LineCoverage.LineCoverageCounts | s2e_env/commands/code_coverage/lcov.py:128-135 | The command fails exactly when no TB holds any address; otherwise it continues with the address counts. |
| LineCoverage.NoCounts | s2e_env/commands/code_coverage/lcov.py:133-135 | The address counts are empty exactly when no TB holds any address. |
| ServerStats.MergeModulesSpec | s2e_env/server/stats.py:41-48 | After the reports a module has stats exactly when it had them or was reported; its called_random flag is the or of its old flag and every report's, and its random_branches_pc the union of its old addresses and every reported one. |
| ServerStats.ApplyMaxSpec | s2e_env/server/stats.py:69-71 | After the max merge a listed key holds the larger of its old and reported values (a missing value reads as 0), however often it is listed; an unlisted key is unchanged. |
| ServerStats.ApplySumSpec | s2e_env/server/stats.py:83-84 | After the sum merge over keys listed once, a listed key has grown by the reported value and an unlisted one is unchanged. |
| ServerStats.KeyListFacts | s2e_env/server/stats.py:56-81 | "states" is in neither key list, "recipe_count" is in both, and the summed keys are listed once each. |
| ServerStats.MergeGlobalSpec | s2e_env/server/stats.py:50-84 | states grows by states_delta; a max-only key becomes the larger value; a sum-only key grows by the reported value; recipe_count, in both lists, ends as the larger value plus the reported one; every other key keeps its value and presence. |
| ServerStats.MergeWithSpec | s2e_env/server/stats.py:50-84 | The same characterisation of the global merge for any two key lists whose summed list has no repeats. |
| ServerStats.CgcStats.constructor | s2e_env/server/stats.py:34-38 | A new collector has no module and no global statistics. |
| ServerStats.CgcStats.ProcessStats | s2e_env/server/stats.py:40-84 | The per-module statistics become the module merge of the old ones with the reports, and the global statistics the global merge, as characterised by MergeModulesSpec and MergeGlobalSpec. |
| ServerStats.MergeReports | s2e_env/server/stats.py:43-48 | The loop over the reported modules computes exactly the module merge. |
| ServerStats.MergeGlobalStats | s2e_env/server/stats.py:51-84 | The global statements compute exactly the global merge. |
| ServerStats.MaxLoop | s2e_env/server/stats.py:69-71 | The loop over the max keys computes exactly the max merge. |
| ServerStats.SumLoop | s2e_env/server/stats.py:83-84 | The loop over the summed keys computes exactly the sum merge. |
| ServerCoverage.RegisteredSpec | s2e_env/server/coverage.py:85-88 | Registering the modules of a file adds exactly the listed modules that were unseen, each with no pairs, and changes no module's recorded pairs. |
| ServerCoverage.DiffSpec | s2e_env/server/coverage.py:77-103 | The diff has an entry for every listed module, holding exactly the pairs its entry lists that are not already recorded for it. |
| ServerCoverage.MergeSpec | s2e_env/server/coverage.py:120-136 | After a file a module is present exactly when it was or is listed, and its pairs are its old pairs plus every pair the file lists for it. |
| ServerCoverage.MergeIdempotent | s2e_env/server/coverage.py:120-136 | Processing the same coverage file twice records nothing more than processing it once. |
| ServerCoverage.KnownPairLeavesSummaryStale | s2e_env/server/coverage.py:123-142 | As written, a BB file whose pair is already covered as a TB, or a new module listed with no blocks, marks nothing new, so a summary marked up to date is kept although the BB breakdown it reports has changed. |
| ServerCoverage.Sizes | s2e_env/server/coverage.py:54-56 | The breakdown has exactly one count per module. |
| ServerCoverage.TotalRemove | s2e_env/server/coverage.py:54-63 | The totals of the summary do not depend on the order in which the dictionary yields the modules. |
| ServerCoverage.Coverage.constructor | s2e_env/server/coverage.py:39-47 | A new collector has no coverage, no static counts and an empty summary not marked up to date. |
| ServerCoverage.Coverage.AnyUncovered | s2e_env/server/coverage.py:105-131 | The check finds a new block exactly when some pair of the diff is covered neither as a BB nor as a TB for that module. |
| ServerCoverage.Coverage.UpdateSummary | s2e_env/server/coverage.py:49-75 | The summary becomes the per-module BB counts, the BB and TB totals and the static block total of the current coverage, and is marked up to date; the coverage is unchanged. |
| ServerCoverage.Coverage.ComputeBbDiff | s2e_env/server/coverage.py:77-103 | The result is the diff of the file against the coverage of its kind, that coverage gains the unseen modules with empty sets, and nothing else changes. |
| ServerCoverage.Coverage.ProcessCoverage | s2e_env/server/coverage.py:111-142 | The coverage of the file's kind gains every listed pair, a BB file also sets each listed module's static block count, the other kind is unchanged, and the summary afterwards describes the new coverage. |
| ServerCoverage.DiffLoop | s2e_env/server/coverage.py:85-101 | The loop computes exactly the diff and the registered coverage. |
| ServerCoverage.PairsOf | s2e_env/server/coverage.py:90-99 | The set built holds exactly the (start_pc, end_pc) pairs of the items. |
| ServerCoverage.SumBbs | s2e_env/server/coverage.py:51-58 | The BB loop yields one count per module and the totals of the counts and of the static block counts. |
| ServerCoverage.SumSizes | s2e_env/server/coverage.py:60-63 | The TB loop yields the total of the TB set sizes. |
| ServerCoverage.DiffEntry | s2e_env/server/coverage.py:101 | A listed module's diff entry is its listed pairs less those already recorded for it. |
| ServerCoverage.MergeRegistered | s2e_env/server/coverage.py:86-136 | Registering unseen modules before the union changes nothing the union would not add anyway. |
| CgcInterface.TranslateAllSpec | s2e_env/server/cgc_interface.py:46-51 | For distinct keys, translating succeeds exactly when every listed key is missing, null or a string; then the message keeps its keys, each listed string becomes the output folder joined with it, and every other value is unchanged; a failure is an AttributeError. |
| CgcInterface.TranslatePathsSpec | s2e_env/server/cgc_interface.py:33-51 | The same characterisation for the six file-name keys of a message. |
| CgcInterface.TranslateKeys | s2e_env/server/cgc_interface.py:46-51 | The loop over the keys computes exactly the translation characterised by TranslateAllSpec, stopping at the first value that cannot be joined. |
| CgcInterface.TranslatePaths | s2e_env/server/cgc_interface.py:33-51 | Translating a message applies that loop to the six file-name keys. |
| CgcInterface.IgnoredMessages | s2e_env/server/cgc_interface.py:90-96 | A message of an unknown type or a database error changes no counter and no queue and raises nothing. |
| CgcInterface.StatsOnlyQueued | s2e_env/server/cgc_interface.py:98-102 | A stats message with joinable file names is queued once, with the same keys, and touches no counter and no coverage request. |
| CgcInterface.TestcaseCounters | s2e_env/server/cgc_interface.py:61-70 | A test case increments pov1_count exactly for a POV of type 1, pov2_count exactly for a POV of type 2 and crash_count exactly for a crash; at most one counter grows, none shrinks, and no statistics are queued. |
| CgcInterface.TestcaseQueuesCoverage | s2e_env/server/cgc_interface.py:72-82 | A test case queues its BB coverage file, if any, as BB coverage, then its TB coverage file, if any, as TB coverage, after what was already queued, and nothing else. |
| CgcInterface.QueuedCoverageIsAbsolute | s2e_env/server/cgc_interface.py:98-107 | The BB coverage file a test case queues is the output folder joined with the name the message carried. |
| CgcInterface.CgcInterfacePlugin.constructor | s2e_env/server/cgc_interface.py:54-57 | The counters start at zero and nothing is queued. |
| CgcInterface.CgcInterfacePlugin.HandleTestcase | s2e_env/server/cgc_interface.py:59-82 | The counters and the coverage queue change exactly as TestcaseCounters and TestcaseQueuesCoverage describe. |
| CgcInterface.CgcInterfacePlugin.HandleStats | s2e_env/server/cgc_interface.py:84-86 | The message is appended to the statistics queue and nothing else changes. |
| CgcInterface.CgcInterfacePlugin.Process | s2e_env/server/cgc_interface.py:88-108 | The dispatch yields the new counters, queues and outcome that the message step defines, as characterised by the lemmas above. |
| TraceModules.SameIffOverlap | s2e_env/execution_trace/modules.py:56-60 | Two non-empty sections compare equal exactly when they share an address. |
| TraceModules.SameProbeIffContains | s2e_env/execution_trace/modules.py:160-163 | A section compares equal to the one-byte probe for pc exactly when it contains pc. |
| TraceModules.IndexSpec | s2e_env/execution_trace/modules.py:111-116 | On a sorted list, the lookup finds the first section equal to the searched one, and finds nothing exactly when no section equals it. |
| TraceModules.InsortPlace | s2e_env/execution_trace/modules.py:141 | The insertion point splits a sorted list into the sections below the new one and those above it. |
| TraceModules.InsortSorted | s2e_env/execution_trace/modules.py:141 | Inserting a non-empty section that equals none of a sorted list keeps the list sorted. |
| TraceModules.DeleteSorted | s2e_env/execution_trace/modules.py:149 | Deleting one section of a sorted list keeps it sorted. |
| TraceModules.FirstContaining | s2e_env/execution_trace/modules.py:85-89 | Nothing is found exactly when no section contains pc; a found index is the first section that contains pc. |
| TraceModules.GetSection | s2e_env/execution_trace/modules.py:85-89 | The loop returns the first section containing pc, or None exactly when there is none. |
| TraceModules.ToNative | s2e_env/execution_trace/modules.py:91-96 | The result is None exactly when no section contains pc; otherwise pc moved from the runtime base to the native base of the first section containing it. |
| TraceModules.AddOneSpec | s2e_env/execution_trace/modules.py:137-142 | One step of add keeps a sorted list sorted, drops no section, adds only the new one, and leaves a section equal to it loaded. |
| TraceModules.AddAllSections | s2e_env/execution_trace/modules.py:130-142 | add keeps the list sorted, never drops a loaded section, and inserts only the module's sections. |
| TraceModules.AddAllRaises | s2e_env/execution_trace/modules.py:131-133 | add raises, with a plain Exception, exactly when one of the module's sections has size zero. |
| TraceModules.AddAllModules | s2e_env/execution_trace/modules.py:141-142 | Every section add inserts maps to the module, and the only dictionary entries it adds or changes are the module's. |
| TraceModules.AddAllLoaded | s2e_env/execution_trace/modules.py:130-142 | When add does not raise, every section of the module equals a loaded one. |
| TraceModules.AddSections | s2e_env/execution_trace/modules.py:130-142 | The loop computes exactly the list, dictionary and outcome characterised by the AddAll lemmas. |
| TraceModules.RemoveAllSections | s2e_env/execution_trace/modules.py:146-149 | remove keeps the list sorted and deletes only sections equal to one of the module's. |
| TraceModules.RemoveAllModules | s2e_env/execution_trace/modules.py:148-150 | remove deletes only dictionary entries keyed by the module's sections, changes no other, and can raise only KeyError. |
| TraceModules.KeyOnlyOwn | s2e_env/execution_trace/modules.py:53-57 | In a sorted list, the dictionary key of a section equal to a listed one belongs to no other listed section. |
| TraceModules.RemoveStepLinked | s2e_env/execution_trace/modules.py:149-150 | Deleting a listed section and the entry of a section equal to it leaves every other listed section with its dictionary entry. |
| TraceModules.RemoveAllLinked | s2e_env/execution_trace/modules.py:144-150 | After remove, whether it ends normally or raises, every listed section still has its dictionary entry. |
| TraceModules.RemoveSections | s2e_env/execution_trace/modules.py:144-150 | The loop computes exactly the list, dictionary and outcome characterised by the RemoveAll lemmas. |
| TraceModules.AddModuleSpec | s2e_env/execution_trace/modules.py:125-142 | add keeps the map valid and the kernel start; only the module's process changes, and it keeps every section it had; every new section is one of the module's and maps to it; it raises exactly on an empty section, otherwise all the module's sections are loaded; dictionary entries are never lost, and those added or changed map to the module. |
| TraceModules.RemoveModuleSpec | s2e_env/execution_trace/modules.py:144-150 | remove keeps the map valid, the kernel start and the set of processes; an unknown process is a KeyError that changes nothing; only the module's process loses sections, and only sections equal to one of the module's; entries are only deleted, and only those keyed by the module's sections. |
| TraceModules.LookupSpec | s2e_env/execution_trace/modules.py:155-195 | On a valid map, get fails, always with a plain Exception, exactly when the process (0 at or above the kernel start) is unknown or none of its sections contains pc; a module it returns is the one mapped to a section of that process containing pc. |
| TraceModules.ModuleMap.constructor | s2e_env/execution_trace/modules.py:120-123 | A new map is valid, has no process and no module, and its kernel start is 2^64 - 1. |
| TraceModules.ModuleMap.Add | s2e_env/execution_trace/modules.py:125-142 | The map keeps its validity and becomes what AddModuleSpec describes. |
| TraceModules.ModuleMap.Remove | s2e_env/execution_trace/modules.py:144-150 | The map keeps its validity and becomes what RemoveModuleSpec describes. |
| TraceModules.ModuleMap.RemovePid | s2e_env/execution_trace/modules.py:152-153 | The process's section list goes and nothing else changes; an unknown process is a KeyError. |
| TraceModules.ModuleMap.Get | s2e_env/execution_trace/modules.py:155-170 | The result is the lookup that LookupSpec characterises. |
| TraceModules.ModuleMap.Clone | s2e_env/execution_trace/modules.py:180-190 | The copy is a new map with the same sections, modules and kernel start. |
| TraceModules.ModuleMap.SetKernelStart | s2e_env/execution_trace/modules.py:201-203 | Only the kernel start changes. |
| TraceEntries.EntryTypeOf | s2e_env/execution_trace/trace_entries.py:44-72 | An entry kind exists exactly for the numbers 0 to 23 and is that number; any other number is a ValueError. |
| TraceEntries.StripNuls | s2e_env/execution_trace/trace_entries.py:281-286 | The result is a prefix of the input that does not end in NUL, and everything cut off is NUL. |
| TraceEntries.HeaderLayout | s2e_env/execution_trace/trace_entries.py:152-184 | The header format parses to seven little-endian words and its static size is 44 bytes. |
| TraceEntries.DeserializeHeaderSpec | s2e_env/execution_trace/trace_entries.py:159-188 | A header decodes exactly from 44 bytes whose first word is a known kind; any other length is a TraceEntryError and an unknown kind a ValueError; the kind, state id, timestamp and size are the little-endian words at bytes 0, 4, 8 and 40. |
| TraceEntries.HeaderOffsets | s2e_env/execution_trace/trace_entries.py:184 | The header's words start at bytes 0, 4, 8 and 40 of its 44 bytes. |
| TraceEntries.FixedCodes | s2e_env/execution_trace/trace_entries.py:112-121 | A plain record class has exactly one unsigned integer code per constructor argument. |
| TraceEntries.IntegralClass | s2e_env/execution_trace/trace_entries.py:183-184 | Sixteen classes, the header among them, have a plain integer format with one code per constructor argument. The other fifteen formats are at lines 310, 342, 362, 388, 444, 476, 577, 853, 916, 948, 980, 1099, 1165, 1191 and 1211. |
| TraceEntries.NotIntegral | s2e_env/execution_trace/trace_entries.py:246-247 | The classes with strings, a size-dependent count, nested records, no format or a mismatched format are not plain records. The other such classes start at lines 414, 532, 647, 712, 763, 1025 and 1131. |
| TraceEntries.IntegralLayout | s2e_env/execution_trace/trace_entries.py:152-156 | A plain record's format parses to its integer codes and its static size is their total width. |
| TraceEntries.GenericDispatch | s2e_env/execution_trace/trace_entries.py:158-165 | Every class without a decoder of its own is decoded by the generic unpack-then-construct decoder. |
| TraceEntries.IntegralDispatch | s2e_env/execution_trace/trace_entries.py:158-165 | For a plain record class the generic decoder builds the record from the unpacked integers. |
| TraceEntries.IntegralFields | s2e_env/execution_trace/trace_entries.py:159-164 | A plain record's fields are read only from data of its exact size, and are then all integers. |
| TraceEntries.IntegralSerialize | s2e_env/execution_trace/trace_entries.py:167-180 | A plain record serializes by packing its values with its own codes. |
| TraceEntries.FixedDecode | s2e_env/execution_trace/trace_entries.py:152-165 | A plain record decodes exactly from its static size in bytes, any other length being a TraceEntryError, and serializing the decoded record gives the same bytes back. |
| TraceEntries.FixedRoundTrip | s2e_env/execution_trace/trace_entries.py:152-180 | A plain record serializes exactly when it has one in-range integer per field, into its static size in bytes, which decode back to the same record. |
| TraceEntries.ModuleLoadLayout | s2e_env/execution_trace/trace_entries.py:246-247 | A module load is a 32-byte name, a 256-byte path and five 64-bit words: 328 bytes. |
| TraceEntries.StripPadded | s2e_env/execution_trace/trace_entries.py:281-286 | Stripping NULs undoes the NUL padding packing adds to a string that fits and does not end in NUL. |
| TraceEntries.ModuleLoadDecode | s2e_env/execution_trace/trace_entries.py:246-258 | A module load decodes exactly from 328 bytes, any other length being a TraceEntryError; the name is the first 32 bytes and the path the next 256, and serializing it gives the same bytes back. |
| TraceEntries.ModuleLoadDispatch | s2e_env/execution_trace/trace_entries.py:159-162 | The generic decoder reads a module load with its format and builds the entry from the seven values. |
| TraceEntries.ModuleLoadShape | s2e_env/execution_trace/trace_entries.py:247 | The module-load codes are two strings followed by five integers. |
| TraceEntries.ModuleLoadValues | s2e_env/execution_trace/trace_entries.py:247 | Unpacked module-load values are two byte strings of 32 and 256 bytes and five non-negative integers. |
| TraceEntries.ModuleLoadRoundTrip | s2e_env/execution_trace/trace_entries.py:246-287 | A module load serializes exactly when its five integers fit 64 bits, into 328 bytes that decode to the name and path padded or cut to 32 and 256 bytes and the same integers; a name and path that fit and do not end in NUL read back unchanged. |
| TraceEntries.PaddedNames | s2e_env/execution_trace/trace_entries.py:281-286 | A name and path that fit and do not end in NUL come back unchanged from their padded copies. |
| TraceEntries.ModuleLoadNormal | s2e_env/execution_trace/trace_entries.py:260-267 | Packing a module load succeeds exactly when its integers fit, and unpacking the result gives the padded strings and the same integers. |
| TraceEntries.ForkFormat | s2e_env/execution_trace/trace_entries.py:414-426 | The fork format with a count is a count word and that many child words; a negative count is a struct.error. |
| TraceEntries.ForkDecode | s2e_env/execution_trace/trace_entries.py:420-428 | Decoding a fork needs a non-zero size (else TraceEntryError); a size below 4 is a struct.error; otherwise the data must hold exactly the count word and (size - 4) / 4 children, and serializing the result changes only the count word. |
| TraceEntries.SerializeForkPack | s2e_env/execution_trace/trace_entries.py:430-431 | A fork serializes as its number of children followed by the child ids, as 32-bit words. |
| TraceEntries.ForkRoundTrip | s2e_env/execution_trace/trace_entries.py:413-431 | A fork serializes exactly when it has fewer than 2^32 children, each below 2^32, into four bytes per child plus the count word, and decoding those bytes with that size gives the same children back. |
| TraceEntries.CountBelow | s2e_env/execution_trace/trace_entries.py:430-431 | A count followed by the counted values are all below a bound exactly when the count and each value are. |
| TraceEntries.CacheSimNameFormat | s2e_env/execution_trace/trace_entries.py:532-546 | The cache name format with a length is a byte, two words and the name; a negative length is a struct.error. |
| TraceEntries.CacheSimNameNeverDecodes | s2e_env/execution_trace/trace_entries.py:540-548 | Decoding a cache name never succeeds: without a size it is a TraceEntryError, with a bad size or length a struct.error, and otherwise the unpacked values are one more than the constructor takes. |
| TraceEntries.CacheNeverDecodes | s2e_env/execution_trace/trace_entries.py:657-670 | Decoding a cache record never succeeds, since the name record inside it never decodes; without a size it is a TraceEntryError. |
| TraceEntries.MemCheckerFormat | s2e_env/execution_trace/trace_entries.py:712-727 | The memory checker format with a length is a 64-bit word, three 32-bit words and the name. |
| TraceEntries.MemCheckerNeverDecodes | s2e_env/execution_trace/trace_entries.py:721-729 | Decoding a memory checker record never succeeds: without a size it is a TraceEntryError, with a bad size or length a struct.error, and otherwise the unpacked values are one more than the constructor takes. |
| TraceEntries.TranslationBlockLayout | s2e_env/execution_trace/trace_entries.py:1025 | The translation block format is fourteen integers in 87 bytes. |
| TraceEntries.TranslationBlockNeverDecodes | s2e_env/execution_trace/trace_entries.py:1025-1036 | A translation block never decodes: 87 bytes give fourteen values for a constructor of seven, a TypeError, and any other length is a TraceEntryError. |
| TraceEntries.TranslationBlock64NeverDecodes | s2e_env/execution_trace/trace_entries.py:1130-1134 | The 64-bit translation block format starts with a character that is no code, so decoding it and its static size are TraceEntryErrors. |
| TraceEntries.ModuleUnloadSerializeAsWrittenFails | s2e_env/execution_trace/trace_entries.py:309-319 | As written, serializing a module unload packs only the load base into the three-word format, which fails for every entry. |
| TraceEntries.ModuleUnloadRoundTrip | s2e_env/execution_trace/trace_entries.py:309-319 | Packing all three fields, as the format and constructor intend, succeeds for in-range values and decodes back to the same entry. |
| TraceFileParse.ClassOf | s2e_env/execution_trace/__init__.py:37-60 | An entry type has no decoding class exactly for MODULE_DESC, OSINFO and MAX; a fork is decoded as a fork. |
| TraceFileParse.Take | s2e_env/execution_trace/__init__.py:251-270 | A read returns the next n unread bytes, or all of them if fewer remain, and leaves the rest unread. |
| TraceFileParse.MaxId | s2e_env/execution_trace/__init__.py:244 | There is no bound exactly when no ids are requested; otherwise the bound is one of the ids and no id exceeds it. |
| TraceFileParse.NewChildren | s2e_env/execution_trace/__init__.py:282-302 | The new children of a fork are exactly its listed children other than the forking state, each once. |
| TraceFileParse.EmptyBranches | s2e_env/execution_trace/__init__.py:302-306 | The rebuilt fork holds one empty trace per new child, in order. |
| TraceFileParse.ReadsEntry | s2e_env/execution_trace/__init__.py:251-271 | Reading an entry takes exactly the header's 44 bytes and then exactly the header's size in payload bytes. |
| TraceFileParse.SkipUnknown | s2e_env/execution_trace/__init__.py:261-267 | An entry whose type has no class is skipped by its size, whatever its payload, and the parse goes on as if it were absent. |
| TraceFileParse.SkipDropped | s2e_env/execution_trace/__init__.py:275-277 | An entry of a state above the largest requested id is read and dropped, and the parse goes on as if it were absent. |
| TraceFileParse.KeepsBelowMax | s2e_env/execution_trace/__init__.py:244-277 | With requested ids, no state above the largest of them ever gets a trace. |
| TraceFileParse.ForkEntryLists | s2e_env/execution_trace/__init__.py:281-306 | The fork entry a kept fork becomes lists each of its children other than the forking state. |
| TraceFileParse.RecordForkKeeps | s2e_env/execution_trace/__init__.py:281-317 | Recording a fork keeps every earlier fork point valid and makes each new child's fork point index that fork. |
| TraceFileParse.RecordKeeps | s2e_env/execution_trace/__init__.py:281-317 | Recording any entry keeps every fork point valid and each state's count equal to its trace length. |
| TraceFileParse.ParseKeepsForkPoints | s2e_env/execution_trace/__init__.py:216-317 | Within one file read by a fresh parser, every recorded fork point indexes the fork entry that forked the child, whether or not the file parses to its end. |
| TraceFileParse.FreshConsistent | s2e_env/execution_trace/__init__.py:153-156 | A fresh parser has no traces, no path information and no counts, so its fork points are trivially valid. |
| TraceFileParse.ForkRecordRaisesAsWritten | s2e_env/execution_trace/__init__.py:291-306 | As written, a kept fork that names a child other than the forking state raises AttributeError after recording that child's fork point, which then points past the end of the forking state's trace. |
| TraceReconstruct.ChainLinks | s2e_env/execution_trace/__init__.py:319-330 | A parent chain that ends is empty exactly for state 0; otherwise it starts with the state's parent, each state on it is followed by its own parent, and it ends at state 0. |
| TraceReconstruct.OrderedChainEnds | s2e_env/execution_trace/__init__.py:319-330 | When every parent has a smaller id than its child, following parents always ends, at state 0 or at a state without path information. |
| TraceReconstruct.GatherStep | s2e_env/execution_trace/__init__.py:190-192 | Gathering one more requested id adds exactly its parent chain, which must end. |
| TraceReconstruct.GatherSpec | s2e_env/execution_trace/__init__.py:190-192 | A state is gathered exactly when it is on the parent chain of a requested id, and every requested id's chain ends. |
| TraceReconstruct.TargetsSpec | s2e_env/execution_trace/__init__.py:188-196 | With requested ids, the states to return are exactly the nonzero states that are requested or on a requested id's parent chain. |
| TraceReconstruct.OrderedTargetsEnd | s2e_env/execution_trace/__init__.py:188-198 | When parents have smaller ids, collecting the states to return never loops. |
| TraceReconstruct.OrderedGatherEnds | s2e_env/execution_trace/__init__.py:190-192 | When parents have smaller ids, gathering parent chains never loops. |
| TraceReconstruct.SetMax | s2e_env/execution_trace/__init__.py:201 | The largest element of a non-empty set is in it and bounds every element. |
| TraceReconstruct.DescendingSpec | s2e_env/execution_trace/__init__.py:201 | The processing order lists every state to return exactly once, from the highest id down. |
| TraceReconstruct.SetBranchSpec | s2e_env/execution_trace/__init__.py:206 | After the assignment the fork holds the trace under the state's id, keeps every branch of another id, gains nothing else, and grows only when the id is new. |
| TraceReconstruct.AttachStep | s2e_env/execution_trace/__init__.py:202-206 | Attaching succeeds only for a state with path information whose parent has a trace reaching past the fork point, and then changes no trace's presence or the parent's length. The child's trace is stored as a copy, not the aliased list (see "## Left out"). |
| TraceReconstruct.AttachLinks | s2e_env/execution_trace/__init__.py:202-206 | Attaching a state links it to its fork and keeps every state linked before still linked. |
| TraceReconstruct.CutLinks | s2e_env/execution_trace/__init__.py:211-212 | Cutting a parent to a length past every attached fork point in it keeps every link. |
| TraceReconstruct.StepLinks | s2e_env/execution_trace/__init__.py:201-212 | One corrected step keeps every attached state linked, the one just attached included. |
| TraceReconstruct.ReconstructLinks | s2e_env/execution_trace/__init__.py:201-212 | When the corrected reconstruction succeeds, every state it attached, and every state attached before it, still has its fork point indexing a fork that holds its branch. |
| TraceReconstruct.ReconstructLinksAll | s2e_env/execution_trace/__init__.py:201-214 | The corrected reconstruction from a fresh start links every state it processes. |
| TraceReconstruct.UncutAgrees | s2e_env/execution_trace/__init__.py:201-212 | Without requested ids nothing is cut, and the corrected loop and the loop as written agree. |
| TraceReconstruct.TwoForksOrder | s2e_env/execution_trace/__init__.py:188-201 | Asking for states 1 and 2 of a state that forked both returns just those two, state 2 first. |
| TraceReconstruct.AsWrittenLosesFork | s2e_env/execution_trace/__init__.py:201-212 | As written, asking for states 1 and 2 of a state that forked both cuts the parent after state 1's fork, so the fork holding the requested state 2 is gone from the tree. |
| TraceReconstruct.CorrectedKeepsFork | s2e_env/execution_trace/__init__.py:201-212 | Corrected, the same request keeps both forks, each holding its state. |
| TraceSort.InsertByTime | s2e_env/execution_trace/__init__.py:181-182 | Inserting one entry into a trace adds exactly one entry. |
| TraceSort.SortByTime | s2e_env/execution_trace/__init__.py:181-182 | Sorting a trace keeps its length. |
| TraceSort.InsertPerm | s2e_env/execution_trace/__init__.py:181-182 | Inserting an entry keeps every entry already there and adds that one. |
| TraceSort.InsertSorted | s2e_env/execution_trace/__init__.py:181-182 | Inserting into a trace in timestamp order leaves it in timestamp order. |
| TraceSort.InsertStable | s2e_env/execution_trace/__init__.py:181-182 | Among entries stamped alike, the inserted entry comes after those already there, which keep their order. |
| TraceSort.SortSpec | s2e_env/execution_trace/__init__.py:181-182 | `sort(key=timestamp)` puts each trace in timestamp order, keeps every entry, and is stable: entries stamped alike keep their relative order. |
| TraceSort.SortedUnchanged | s2e_env/execution_trace/__init__.py:181-182 | A trace already in timestamp order is left as it is. |
| TraceSort.Slot | s2e_env/execution_trace/__init__.py:181-182 | The insertion point lies within the trace, and the entry after it, if any, is stamped later. |
| TraceSort.InsertAtSlot | s2e_env/execution_trace/__init__.py:181-182 | Insertion splits the trace at that point and puts the entry there. |
| TraceSort.SlotShift | s2e_env/execution_trace/__init__.py:181-182 | Passing an entry stamped later does not move the insertion point. |
| TraceSort.InsertAt | s2e_env/execution_trace/__init__.py:181-182 | One pass moves the entry at `i` into place among those before it and leaves the rest of the array alone. |
| TraceSort.SortEntries | s2e_env/execution_trace/__init__.py:181-182 | Sorting the array in place leaves it holding the stable timestamp sort of what it held. |
| TraceTestCases.Assign | s2e_env/execution_trace/trace_entries.py:812-815 | Storing into the dictionary grows it by at most one key. |
| TraceTestCases.AssignSpec | s2e_env/execution_trace/trace_entries.py:812-815 | After `d[k] = v` the key reads `v`, every other key reads as before, and the keys stay distinct. |
| TraceTestCases.AssignKeys | s2e_env/execution_trace/trace_entries.py:812-815 | Storing adds no key other than the one stored. |
| TraceTestCases.RecordSizes | s2e_env/execution_trace/trace_entries.py:768-804 | A record header decodes exactly when it is 8 bytes long, into two little-endian 32-bit sizes; otherwise it is a `struct.error`. |
| TraceTestCases.RecordBody | s2e_env/execution_trace/trace_entries.py:806-810 | A record body decodes exactly when enough bytes are left for both sizes, into the name followed by the data; otherwise it is a `struct.error`. |
| TraceTestCases.ReadRecord | s2e_env/execution_trace/trace_entries.py:802-815 | Reading a well-formed record stores its name with its data and continues right after it. |
| TraceTestCases.ShortHeader | s2e_env/execution_trace/trace_entries.py:802-804 | A payload that ends inside a record header fails with `struct.error`. |
| TraceTestCases.ReadTestCaseItems | s2e_env/execution_trace/trace_entries.py:812-815 | The loop consumes the payload record by record, with the result of reading it into an empty dictionary. |
| TraceTestCases.LeadingDigits | s2e_env/execution_trace/trace_entries.py:781 | The leading run of digits is all digits and is followed by a non-digit or the end. |
| TraceTestCases.LastIndex | s2e_env/execution_trace/trace_entries.py:781 | The last occurrence of a byte is that byte, with no occurrence after it, or -1 when there is none. |
| TraceTestCases.StripNewline | s2e_env/execution_trace/trace_entries.py:781 | `$` matches at the end or just before one final newline. |
| TraceTestCases.MatchEntrySound | s2e_env/execution_trace/trace_entries.py:781-834 | A name the pattern matches is "v", a local sequence number, "_", a non-empty variable name without newline, "_", an absolute number and an optional final newline, and the match yields that number and that name. |
| TraceTestCases.MatchEntryComplete | s2e_env/execution_trace/trace_entries.py:781-834 | Every name of that form matches, yielding its local number and variable name. |
| TraceTestCases.AfterNumber | s2e_env/execution_trace/trace_entries.py:781 | After the local number and its underscore, matching continues on the rest of the name. |
| TraceTestCases.StripAbsolute | s2e_env/execution_trace/trace_entries.py:781 | `$` leaves the name, the underscore and the absolute number, with or without the final newline. |
| TraceTestCases.Place | s2e_env/execution_trace/trace_entries.py:829-834 | Storing at index `x` pads with gaps up to `x`, holds the entry there, and keeps every other slot. |
| TraceTestCases.EntriesOfSpec | s2e_env/execution_trace/trace_entries.py:818-836 | The parsed test case is one longer than the largest local sequence number; index `i` holds the last matching entry numbered `i`, and a number no entry has is a gap. |
| TraceTestCases.InvalidEntrySkipped | s2e_env/execution_trace/trace_entries.py:824-826 | A name that does not match the pattern changes nothing in the parsed test case. |
| TraceTestCases.ParseTestCaseEntries | s2e_env/execution_trace/trace_entries.py:818-836 | The loop over the entries builds the test case ordered by local sequence number. |
| TraceTestCases.PadWithNone | s2e_env/execution_trace/trace_entries.py:829-830 | Padding keeps the existing slots and adds only gaps, up to index `x`. |
| TraceTestCases.EntriesStep | s2e_env/execution_trace/trace_entries.py:822-834 | One more entry stores its match at its local number, or changes nothing when it does not match. |
| TraceTestCases.PadPlace | s2e_env/execution_trace/trace_entries.py:829-834 | Padding and then storing is the same as placing the entry. |
| ExecutionTrace.SortAllSpec | s2e_env/execution_trace/__init__.py:181-182 | Sorting keeps every state, and leaves each state's trace as a timestamp-ordered, stable permutation of itself. |
| ExecutionTrace.ParseLinks | s2e_env/execution_trace/__init__.py:158-214 | When `parse` returns a tree, every state it was asked for (each nonzero requested id, or every forked state when none is requested) has a fork point that indexes, in its parent's final trace, a fork holding its branch. |
| ExecutionTrace.OrderedParseEnds | s2e_env/execution_trace/__init__.py:319-330 | When every parent has a smaller id than its child, `parse` never loops. |
| ExecutionTrace.OneFileForkPoints | s2e_env/execution_trace/__init__.py:216-317 | A single trace file read by a fresh parser records, for each child, a fork point that indexes in its parent's trace the fork that forked it. |
| ExecutionTrace.LinkChildren | s2e_env/execution_trace/__init__.py:281-306 | The loop over a fork's children records the forking state and fork point for each child other than the forking state, and lists exactly those children as the fork's new branches. |
| ExecutionTrace.ExecutionTraceParser.constructor | s2e_env/execution_trace/__init__.py:153-156 | A new parser holds the given trace files, no traces and no path information. |
| ExecutionTrace.ExecutionTraceParser.ParseTraceFile | s2e_env/execution_trace/__init__.py:216-317 | Parsing one file extends the parser's traces and path information as reading its records from fresh per-file counts does, and raises where that reading raises. |
| ExecutionTrace.ExecutionTraceParser.SortTraces | s2e_env/execution_trace/__init__.py:181-182 | Every state's trace is replaced by its timestamp sort; path information and files are unchanged. |
| ExecutionTrace.ExecutionTraceParser.GetParentStates | s2e_env/execution_trace/__init__.py:319-330 | The parents of a state up to state 0, a TypeError at a state without path information, or a loop on a cycle. |
| ExecutionTrace.ExecutionTraceParser.StatesToReturn | s2e_env/execution_trace/__init__.py:188-198 | The states to return are those collected from the path information and the requested ids. |
| ExecutionTrace.ExecutionTraceParser.ReconstructTree | s2e_env/execution_trace/__init__.py:201-212 | Reassembly attaches the states in the given order, with the corrected cut, and leaves path information and files alone. |
| ExecutionTrace.ExecutionTraceParser.ReadFiles | s2e_env/execution_trace/__init__.py:175-178 | The files are parsed in order into the same traces and path information, stopping at the first one that raises. |
| ExecutionTrace.ExecutionTraceParser.Parse | s2e_env/execution_trace/__init__.py:158-214 | `parse` reads every file, sorts, reassembles in descending state order, and returns state 0's trace, or the error that stops it. |
| ExecutionTrace.SortEach | s2e_env/execution_trace/__init__.py:181-182 | The loop over the states sorts each state's trace. |
| ExecutionTrace.Reassemble | s2e_env/execution_trace/__init__.py:201-212 | The reconstruction loop attaches each state in turn and cuts an unrequested parent, never before a fork point already attached in it. Traces are attached as copies, not aliased lists (see "## Left out"). |
| ExecutionTrace.SortedCopy | s2e_env/execution_trace/__init__.py:181-182 | A trace sorted in an array and read back is its stable timestamp sort. |
| ExecutionTrace.ReadAll | s2e_env/execution_trace/__init__.py:249-317 | The record loop reads entries until the data is exhausted or one fails to decode. |
| ExecutionTrace.ReadEntry | s2e_env/execution_trace/__init__.py:250-317 | One pass either stops with the error reading the whole rest would give, or consumes at least one byte without changing what reading the rest gives. |
| ExecutionTrace.RecordEntry | s2e_env/execution_trace/__init__.py:280-317 | A kept entry links a fork's children and then joins its state's trace and is counted. |
| ExecutionTrace.GatherKeepsFailure | s2e_env/execution_trace/__init__.py:189-192 | Once one requested id's parent chain raises or loops, the ids after it are never looked at. |
| ExecutionTrace.DescendingOrder | s2e_env/execution_trace/__init__.py:201 | `sorted(states, reverse=True)` lists the states from the highest id down. |
| ExecutionTrace.ParseResults | s2e_env/execution_trace/__init__.py:333-361 | Without any trace file the result is an empty trace; otherwise it is what a fresh parser over all the files returns. |
| TraceAnalyzer.ForkPushes | s2e_env/execution_trace/analyzer.py:77-80 | A fork stacks every one of its branches, in order, each with the map as it is at the fork. Branches go in the fork's list order, not Python 2 dict order (see "## Left out"). |
| TraceAnalyzer.EntriesFromTrace | s2e_env/execution_trace/analyzer.py:76 | The size of a trace's remaining entries does not depend on which branch holds it. |
| TraceAnalyzer.ForkPushesWeight | s2e_env/execution_trace/analyzer.py:77-80 | The traces a fork stacks weigh exactly what its branches do. |
| TraceAnalyzer.ApplyWeight | s2e_env/execution_trace/analyzer.py:76-91 | What one entry stacks is smaller than the entry's subtree, so the walk ends. |
| TraceAnalyzer.RunWeight | s2e_env/execution_trace/analyzer.py:76-93 | What a trace's entries stack is no larger than those entries' subtrees. |
| TraceAnalyzer.ReverseWeight | s2e_env/execution_trace/analyzer.py:73-80 | Reversing the stacked traces does not change their weight. |
| TraceAnalyzer.WalkStackPop | s2e_env/execution_trace/analyzer.py:73-80 | The stack walk pops the last pending trace, runs it, and goes on with the traces it stacked on top of the rest. |
| TraceAnalyzer.WalkStackAppend | s2e_env/execution_trace/analyzer.py:73-80 | Traces pushed onto the stack are walked, the last pushed first, before anything below them. |
| TraceAnalyzer.WalkStackIsDepthFirst | s2e_env/execution_trace/analyzer.py:48-93 | Walking with the explicit stack is the depth-first walk: a trace's entries, then each forked subtree, the last-stacked child first, stopping at the first exception. |
| TraceAnalyzer.ApplySpec | s2e_env/execution_trace/analyzer.py:76-91 | Applying an entry keeps the map valid; an entry lacking its type's attribute raises AttributeError; otherwise only a module load of size 0 raises; a fork leaves the map alone and gives each child the map at the fork; any other type changes nothing. |
| TraceAnalyzer.LoadAddsModule | s2e_env/execution_trace/analyzer.py:83-85 | A module load that goes through leaves its section loaded in its process's map, leaves every other process and the kernel start as they were. |
| TraceAnalyzer.UnloadOnlyRemoves | s2e_env/execution_trace/analyzer.py:86-91 | A module unload, whatever it raises internally, maps no section to a module that was not already mapped to it and keeps the kernel start. |
| TraceAnalyzer.ModuleEntryRaisesAsWritten | s2e_env/execution_trace/analyzer.py:84-87 | As written, every module load and unload raises TypeError before touching the map, unlike the corrected step. |
| TraceAnalyzer.RunEvents | s2e_env/execution_trace/analyzer.py:76-93 | The callback sees the trace's entries in order, each once, and all of them when no entry raised. |
| TraceAnalyzer.RunValid | s2e_env/execution_trace/analyzer.py:76-93 | Every map the callback sees, every map stacked for a child and the map a trace ends with are valid. |
| TraceAnalyzer.WalkValid | s2e_env/execution_trace/analyzer.py:68-93 | Every map the callback sees anywhere in the tree is valid. |
| TraceAnalyzer.WalkAllValid | s2e_env/execution_trace/analyzer.py:68-93 | Every map the callback sees while walking pending traces with valid maps is valid. |
| TraceAnalyzer.ApplyEntry | s2e_env/execution_trace/analyzer.py:77-91 | Applying an entry to the state object updates it as the corrected step does, and each child gets a fresh clone holding the map at the fork. |
| TraceAnalyzer.RunStep | s2e_env/execution_trace/analyzer.py:76-93 | Running from one entry is that entry's callback and stacked children followed by running from the next. |
| TraceAnalyzer.RunTrace | s2e_env/execution_trace/analyzer.py:76-93 | The loop over one popped trace makes the callbacks, stacks the children and leaves the map as the trace's run does. |
| TraceAnalyzer.ThenPass | s2e_env/execution_trace/analyzer.py:73-93 | Two passing walks in a row are one passing walk of both callback lists. |
| TraceAnalyzer.WalkTree | s2e_env/execution_trace/analyzer.py:68-93 | `walk_tree` makes exactly the callbacks of the depth-first walk from the tree with an empty map, and ends with its outcome. Siblings are walked in list order, not dict order (see "## Left out"). |

## Left out

Members that compute the corrected behaviour (each row of "## Findings" names the as-written member beside it):

- BasicBlocks.BasicBlockCoverage: counts a basic block when it intersects a translation block, where basic_block.py:255-259 tests only whether one of the TB's two endpoints lies in the block. A block strictly inside a TB counts here and not in the source (see `InnerBlockMissed`).
- BasicBlocks.CoverageOf: uses the same intersection test as `BasicBlockCoverage`, not the source's endpoint test.
- ServerCoverage.Coverage.ProcessCoverage: also marks the summary stale when the file changed the coverage or the static block counts, where server/coverage.py:119-131 marks it stale only for a block covered by neither kind. In the source the summary can stay stale (see `KnownPairLeavesSummaryStale`).
- SymbolFunctions.FunctionInfo.Add: orders functions by `end <= start`, where functions.py:55-57 orders them by `end < start` with an exclusive end address.
- SymbolFunctions.FunctionInfo.Get: searches under that same corrected order, so an address just before a function is not reported as inside it.
- TraceFileParse.ParseBytes: records a kept fork with its children linked, where __init__.py:306 reads `item.pc` from a fork entry that has no such attribute and raises AttributeError (see `ForkRecordRaisesAsWritten`).
- ExecutionTrace.Reassemble: cuts an unrequested parent only after every fork point already attached in it, where __init__.py:211-212 deletes everything after the current fork point. The source can drop a fork that holds a requested state (see `AsWrittenLosesFork`).
- TraceReconstruct.Reconstruct: does the same as `ExecutionTrace.Reassemble`; `ReconstructAsWritten` is the loop as written.
- ExecutionTrace.ExecutionTraceParser.ReconstructTree: does the same as `ExecutionTrace.Reassemble`.
- TraceAnalyzer.WalkTree: builds the module for a load or an unload from the entry's fields, where analyzer.py:84 and 87 pass six positional arguments to a constructor that takes one (modules.py:72), which raises TypeError (see `ApplyAsWritten`).
- TraceEntries.Serialize: packs all three fields of a module unload, where trace_entries.py:318-319 packs only the load base into a three-field format, which raises struct.error (see `SerializeModuleUnloadAsWritten`).
- SymbolPaths.GuessRelPath: stops its walk up the directory tree at a root made only of slashes, where paths.py:81-85 stops only at "" and "/". The source loops forever from a search path starting with "//".
- InfFile.ExpandTokens: expands each `%token%` of a line on its own, where file.py:33 uses the greedy `(%.+%)`. That pattern matches from the first '%' to the last, so the source replaces a line holding two tokens with the value of the first (see `ExpandKey`, the as-written function).

Members that use the corrected `ExpandTokens` where file.py calls the greedy `expand_key`:

- InfFile.FileName: expands the first comma field with `ExpandTokens`, where file.py:244 calls the greedy `expand_key`. An entry `%a%_%b%.sys` with a = 'x' and b = 'y' names 'x_y.sys' here and 'x.sys' in the source. A field without '%' is left alone by both (`ExpandKeyPlain`, `ExpandTokensPlain`).
- InfFile.GetFilesOf: its file names come from `FileName`, so a field holding two tokens names another file than in the source.
- InfFile.FilesOfSpec: states the files named through `FileName`, with the same difference.
- InfFile.GetFiles: computes `GetFilesOf`, with the same difference.
- InfFile.InstallInfoOf: its copied files come from `GetFiles`, with the same difference.
- InfFile.InstallInfoFiles: states the copied files named through `FileName`, with the same difference.
- InfFile.CopyFiles: unites the lists named through `FileName`, with the same difference.
- InfFile.InstallInfoFor: computes `InstallInfoOf`, with the same difference.
- InfFile.InstallStep: describes a section by `InstallInfoOf`, with the same difference.
- InfFile.InstallNext: describes a section by `InstallInfoFor`, with the same difference.
- InfFile.GetInstallInfoValues: each section's information is `InstallInfoOf`, with the same difference.
- InfFile.GetInstallInfo: computes `GetInstallInfoOf`, with the same difference.
- InfFile.ModelOfSpec: names the device with `ExpandTokens` of the model key, where file.py:177 calls the greedy `expand_key`. A model key holding two tokens names the device differently from the source.
- InfFile.GetModelsOf: each device is `ModelOf` of its line, so its name differs in the same way.
- InfFile.GetModelsSpec: states the devices of `GetModelsOf`, with the same difference.
- InfFile.Model: computes `ModelOf`, with the same difference.
- InfFile.GetModels: computes `GetModelsOf`, with the same difference.

Members modelled as written, with the corrected form only proved alongside:

- RadareBlocks.SplitBasicBlock: computes the split as written. This loses the code after the last splitting call. The corrected `SplitFixed` is proved to tile the block (`SplitFixedTiles`). No other part of the model consumes the split blocks.
- InfVersions.Matches: is the comparison as written. The corrected `MatchesFixed` is proved alongside. No other part of the model calls either one.

Iteration order:

- Target.Dedup: keeps the first occurrence of each path, in order, where target.py:124 uses `list(set(...))`, whose order depends on string hashes. This order decides which `.sys` file `Target.LastSys` returns (target.py:148-152) and the order of the auxiliary files. With several driver files the source may pick another one.
- TraceTestCases.EntriesOf: visits the test-case records in the order they were read, where trace_entries.py:824 iterates `iteritems()` in hash order. When two names carry the same local sequence number, the model keeps the last one read and the source keeps whichever its hash order visits last.
- CaseInsensitive: keeps its entries in insertion order, where case_insensitive_dict.py:68 and 79-80 iterate a plain dict in hash order. Only membership, lookup, the count and the set of prefixed keys are stated, and none of these depends on that order.
- ServerCoverage, ServerStats: the dictionaries iterated with `iteritems()` are association lists or maps here; only order-independent results (unions, sums, maxima, diffs) are stated.
- TraceAnalyzer.ForkPushes: stacks a fork's branches in the order the fork lists them, where analyzer.py:78 iterates `item.children.itervalues()`, a Python 2 dict keyed by state id whose order follows the ids' hashes, not insertion. When the list is in another order, sibling subtrees are walked, and their entries reach the callback, in another order than in the source. The lemmas about the walk are proved for the list order only.
- TraceAnalyzer.WalkTree: walks forked children in the fork's list order, as `ForkPushes` stacks them, and not in dict order.

Values standing for Python objects:

- BasicBlocks.ModuleStats: identifies basic blocks by value (start, end, function), where basic_block.py:39-55 defines no `__eq__` or `__hash__`, so `covered_bbs[state].add(bb)` (:259) and `len(set(...))` (:147) count distinct objects. A .bblist listing the same block twice, with a TB covering it, gives 2 of 2 covered in the source and 1 of 2 here.
- BasicBlocks.ModuleStatsSpec: states the covered count of `ModuleStats`, which counts distinct block values.
- BasicBlocks.BasicBlockCoverage: its per-state sets hold block values, so a block listed twice is one member, where the source's sets hold two objects.
- TraceReconstruct.AttachStep: stores a copy of the child's trace as it is when attached, where __init__.py:206 stores the list object itself. In the source a later attachment into that list, or a later cut of it (:212), shows through the parent's fork; here it does not. When every parent has a smaller id than its child (`TraceReconstruct.Ordered`), every change to a state's list is made while its children are processed, which is before the state itself is attached, so the copy is the final list. That argument is not proved. Example: path information {2: (0, j), 1: (2, k)}. State 2 is attached into state 0's fork before state 1 is attached into state 2's list, so the source's tree from state 0 reaches state 1 and the model's does not.
- TraceReconstruct.Reconstruct: attaches by `AttachStep`, with the same copy semantics.
- ExecutionTrace.Reassemble: attaches by value in the same way, so it agrees with the source only when parents have smaller ids.

Text:

- PyStr.LowerChar: folds ASCII letters only, where the INF text is decoded to `unicode` (parser.py:48 and parser.py:78-80) and `CaseInsensitiveDict` folds keys with `unicode.lower()`. 'Ä' and 'ä' are two keys here and one key in the source.
- PyStr.IsSpace: is ASCII whitespace only, where Python's `strip`, `rstrip` and `split` on decoded text (and `rstrip` at new_plugin.py:41) also treat Unicode spaces as whitespace. A no-break space at the end of an INF value is kept here and stripped in the source.

Error paths and formats not modelled:

- InfParser.ParseString: the file read and the encoding fallback of `_read_file` and `_decode` (parser.py:44-80: ascii, then utf-8, then utf-16) are left out. The parser starts from the decoded text.
- LineCoverage: `os.path.realpath` (lcov.py:107, 202) is taken to be the identity, because the file system is a parameter here. Two spellings of one file are two files in the model.
- TraceEntries.FixedRoundTrip: treats the item header as one more fixed record of integers. In the source the header's `serialize` passes the type, an `Enum`, to `struct.pack` (trace_entries.py:188, 198), which Python 2 rejects with struct.error. So the round trip holds for the header only in the model.
- TraceEntries.Deserialize: given the item-header class, it returns the seven integers without the ValueError that `TraceEntryType(type_)` raises for an unknown kind (trace_entries.py:188). Trace-file parsing decodes headers with `TraceEntries.DeserializeHeader`, which does raise it.
- BasicBlocks.Decode: a field of the wrong JSON type fails with TypeError. Python would build the block from it anyway and fail later.
- TraceEntries: the fork, cache and memory-checker decoders divide sizes with Python 2's floor division on non-negative sizes.
- TraceEntries: the cache, memory-checker and translation-block entries never decode as written (trace_entries.py:531-548, 646-670, 703-729, 999-1036, 1130-1134). The model keeps that behaviour and proves it; no corrected decoder is given.
- Recipe.RecipeFileNameInjective: holds only when the architecture, platform and name contain no '_' and registers are given as indices from 0. Otherwise two recipes can share a file name, in the model as in the source. The recipes `handle` writes meet these conditions (`Recipe.HandleFileNamesDistinct`).
- ImageBuild.CoreNumWarning: `_check_core_num` only logs a warning; the model states when the warning is given and nothing else.
- Hash collisions between distinct keys of Python dictionaries and sets are not modelled. Keys compare by value.

Outside the model:

- File and process I/O: reading trace files, `glob`, `os.remove`, `shutil.rmtree`, creating directories and symlinks, and writing recipes and CMake files. Their contents are parameters or results.
- Jinja2 template rendering (utils/templates.py), libmagic (target.py), pwntools `assemble` (recipe.py), and ELF, PE and DWARF analysis, including lcov's `_get_file_line_coverage` (lcov.py:38-112). Their outputs are parameters.
- The server threads and queues that drive `process_stats` and `process_coverage` (server/stats.py and server/coverage.py `run`). Each call is modelled as one sequential step.
- Logging and warnings: they are not observable in the model.
- The commands, plumbing and user interface left out of the core: init, build, update, run, export and import, the TUI, the argparse dispatch, and bios_project.py.

## Findings

| source | as written | input that shows it | evidently intended | confidence | as-written member | corrected member |
|---|---|---|---|---|---|---|
| s2e_env/symbols/functions.py:55-57 | `a < b` iff `a.end < b.start`, but the end address is exclusive | function f over [0x20, 0x30): `get(0x1f)` returns f; adding [0x10, 0x20) to a table holding [0x20, 0x30) puts it last | `a.end <= b.start`, so that adjacent functions are ordered and an address before a function is not inside it | high, not executed | SymbolFunctions.LookupReturnsNextFunction, SymbolFunctions.InsortMisordersAdjacent | SymbolFunctions.LookupFixedSpec, SymbolFunctions.InsortFixedOrdered |
| s2e_env/infparser/file.py:33 | `(%.+%)` is greedy, so it matches from the first '%' of a line to the last | `%a% and %b%` with a = "x" and b = "y" expands to "x" | each `%token%` replaced by its own string: "x and y" | high, not executed | InfFile.ExpandKeySwallowsSecondToken, InfFile.ExpandKeyExample | InfFile.ExpandTokensToken, InfFile.ExpandTokensPlain |
| s2e_env/commands/code_coverage/r2_basic_block.py:59,63-64 | the end of the open block is moved to the end of the call, so the final test drops the code after the last splitting call | a block at 0x10 of size 8: a call of 5 bytes, then a return at 0x15 gives only [0x10, 0x15) | a last block from the return address to the end of the Radare block: [0x15, 0x18) | high, not executed | RadareBlocks.TailAfterCallDropped, RadareBlocks.SplitBasicBlock | RadareBlocks.SplitFixedTiles |
| s2e_env/commands/code_coverage/basic_block.py:255-259 | a block counts as covered only when one of the TB's endpoints lies in it | basic block [4, 6] inside TB [0, 10] is not counted | a block counts when it shares an address with the TB | medium, not executed | BasicBlocks.InnerBlockMissed | BasicBlocks.OverlapsIsIntersection |
| s2e_env/execution_trace/trace_entries.py:318-319 | a module unload packs one value into the three-field '<QQQ' | any module unload: `serialize()` raises struct.error | all three fields packed, so that decoding gives the entry back | high, not executed | TraceEntries.ModuleUnloadSerializeAsWrittenFails | TraceEntries.ModuleUnloadRoundTrip |
| s2e_env/execution_trace/__init__.py:306 | the rebuilt fork reads `item.pc`, which a fork entry does not have | any kept fork naming a child other than the forking state raises AttributeError, leaving that child's fork point past the end of the trace | the fork rebuilt from the parsed entry's own fields with the new children | high, not executed | TraceFileParse.ForkRecordRaisesAsWritten | TraceFileParse.ParseKeepsForkPoints |
| s2e_env/execution_trace/analyzer.py:84,87 | `Module(...)` is called with six positional arguments; modules.py:72 takes only `pb_module` | any module load or unload entry in the tree: `walk_tree` raises TypeError | a module built from the entry's name, path, bases, size and pid, then added or removed | high, not executed | TraceAnalyzer.ModuleEntryRaisesAsWritten | TraceAnalyzer.LoadAddsModule, TraceAnalyzer.ApplySpec |
| s2e_env/symbols/paths.py:81-85 | the walk up stops only at "" and "/", but `dirname("//")` is "//" | search path "//usr/src" with no "a.c" anywhere: `_guess_rel_path` never returns | the walk stops at the root whatever its number of slashes | high, not executed | SymbolPaths.DoubleSlashHangs, SymbolPaths.UsrSrcHangs | SymbolPaths.AncestorsSpec, SymbolPaths.GuessRelSpec |
| s2e_env/execution_trace/__init__.py:211-212 | an unrequested parent is cut after the fork point just attached, whatever was attached beyond it | state 0 forks state 1 and then state 2; asking for states 1 and 2 attaches state 2, then cuts state 0 after state 1's fork, and state 2 is gone from the tree | an unrequested parent cut only after the last fork point that holds a requested state | high, not executed | TraceReconstruct.AsWrittenLosesFork | TraceReconstruct.CorrectedKeepsFork, TraceReconstruct.ReconstructLinks |
| s2e_env/server/coverage.py:119-131 | the summary is marked stale only for a block that is neither BB- nor TB-covered | a BB file naming a pair already covered as a TB: the BB sets grow, but the summary, marked up to date, is kept | the summary rebuilt whenever the coverage or the static counts change | medium, not executed | ServerCoverage.KnownPairLeavesSummaryStale | ServerCoverage.Coverage.ProcessCoverage |
| s2e_env/infparser/version.py:72-81 | full versions fail when the desired version is older than this one, but with a minor missing they fail when this major is older than the desired one | 6.1 does not match a desired 5.1, but 6 does | one direction of comparison in both cases, so that dropping a minor never flips the verdict when the majors differ | medium, not executed | InfVersions.MatchesDropMinorFlips | InfVersions.MatchesFixedByMajor |
