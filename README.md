# cxx-modules, modelled in Dafny

cxx-modules reads a tree of C++20 sources and writes a build for them. The
tool works in four stages:

1. It scans every translation unit for its `module` and `import`
   declarations. First the line splices are removed. Then the text is
   tokenised by a highlighter grammar built on the `cell`
   parser-combinator library. Finally a bracket-tracking scanner reads
   the declarations.
2. It learns from the module graph which projects export and import
   which modules. Imports of modules that another project exports become
   links between projects.
3. It asks the compiler's toolchain (GCC, Clang, or a toolchain described
   by an XML file) for the targets and rules of that graph. The toolchain
   supplies the names of compiled module interfaces, the commands of each
   rule, and the path conventions of executables and libraries.
4. It writes the result in one of three forms: `build.ninja` for Ninja,
   Visual Studio projects with name-based GUIDs for MSBuild, or a Graphviz
   dependency graph.

Each module below follows one source file or one group of closely related
source files:

- **Text helpers.** `Utils` (splitting, stripping, concatenation),
  `Strings` (byte-string order, decimal conversion), `Paths` (the parts
  of `std::filesystem::path` the tool uses) and `SortedSets` (`std::set`
  and `std::map` as ascending sequences).
- **Parser library and highlighter.**
  - `Ascii`, `Cell`, `CellOperators`, `CellRepeat` and `Tokens`: the
    `cell` library.
  - `HiliteToken`, `HiliteLines` and `HiliteResult`: the highlighter's
    line pass.
  - `Splice`, `CxxParsers` and `Scanner`: the C++ grammar's hand-written
    parsers and the declaration scanner.
- **Build graph and toolchains.**
  - `Types` and `Build`: the build graph.
  - `Generator`, `Compiler`, `Gcc`, `Clang` and `BinaryInterface`: the
    toolchains.
  - `EnvPath`, `CommandSplit`, `IncludeLocator`, `CommandList` and
    `Defaults`: the environment helpers.
  - `XmlTypes`, `XmlHandlers`, `XmlParser`, `XmlFactory` and `XmlCache`:
    the XML compiler descriptions.
- **Output writers.** `Ninja`, `Msbuild` and `Dot`.

Code that changes state step by step is written as methods with loops,
proved equal to a recursive specification function. The properties the
tool relies on are proved as lemmas about those functions. Objects whose
fields the source updates are classes:

- the scanner's callback;
- the `cell` action flag;
- the highlighter's result collectors;
- the token table;
- the include locator;
- the XML handlers and parser;
- the compiler cache;
- the GUID memo of the MSBuild writer;
- the rule set and the generator.

## Model

| member | source | states |
|---|---|---|
| Utils.Split | src/utils.hh:26-42 | the pieces of `split_s` contain no separator, there is at least one, and joined with the separator they give back the input |
| Utils.SplitS | src/utils.hh:26-42 | the loop pushing the text before each separator and then the tail yields exactly the pieces of `Split` |
| Utils.SplitCount | src/utils.hh:26-42 | `split_s` yields exactly one more piece than the input has separators |
| Utils.JoinInjective | src/utils.hh:26-42 | two separator-free piece lists that join to the same text are equal, so splitting loses nothing |
| Utils.SplitUnique | src/utils.hh:26-42 | the pieces of `split_s` are the only separator-free list that joins back to the input |
| Utils.LastPiece | src/utils.hh:39 | the tail pushed after the loop is the run after the last separator, and there is more than one piece iff the text holds a separator |
| Utils.JoinCount | src/utils.hh:26-42 | joining n separator-free pieces puts exactly n-1 separators in the text |
| Utils.Find | src/utils.hh:29 | `find` returns the first index at or after the start that holds the character, and "not found" only when none does |
| Utils.LStripMeaning | src/utils.hh:44-53 | `lstrip_sv` returns a suffix of the input, everything removed is white space, and the result is empty or starts with a non-space |
| Utils.RStripMeaning | src/utils.hh:55-63 | `rstrip_sv` returns a prefix of the input, everything removed is white space, and the result is empty or ends with a non-space |
| Utils.LStripNoop | src/utils.hh:44-53 | text that does not start with white space is returned unchanged by `lstrip_sv` |
| Utils.RStripNoop | src/utils.hh:55-63 | text that does not end with white space is returned unchanged by `rstrip_sv` |
| Utils.StripIdempotent | src/utils.hh:65-67 | `strip_sv` is idempotent and its result neither starts nor ends with white space |
| Utils.LStripSv | src/utils.hh:44-53 | the loop skipping leading spaces returns exactly the left-stripped text |
| Utils.RStripSv | src/utils.hh:55-63 | the loop dropping trailing spaces returns exactly the right-stripped text |
| Utils.StripSv | src/utils.hh:65-72 | `strip_sv` (and `strip_s`, which copies it) is the right strip of the left strip |
| Utils.ConcatLayout | src/utils.hh:84-91 | `u8concat` is as long as all parts together and holds each part, in order, at the sum of the lengths before it |
| Utils.ConcatLength | src/utils.hh:84-91 | the length reserved by `u8concat` is exactly the length of the result |
| Strings.LexLessTrichotomy | src/base/types.hh:23 | the byte-string order behind the defaulted comparisons is total: two different strings are ordered one way or the other, never both |
| Strings.NatToString | src/generators/dot.cc:97 | `std::to_string` of an unsigned value is a non-empty run of decimal digits with no leading zero |
| Strings.DecimalRoundTrip | src/compilers/gcc.cc:54 | reading back the digits `to_string` wrote gives the number |
| Strings.FromChars | src/xml/factory.cc:16 | `from_chars` reads the leading digits; no digit is an error, a value over 32 bits is out of range, and the end pointer passes every digit |
| Strings.ParseWholeMeaning | src/xml/factory.cc:16-17 | the whole text is read with no error exactly when it is a non-empty run of digits whose value fits in 32 bits |
| Strings.ParseWholeRoundTrip | src/compilers/gcc.cc:41-54 | what `to_string` writes, `from_chars` reads back whole |
| Paths.JoinSplits | src/env/defaults.cc:7-14 | `operator/` of a directory and a plain file name splits back into that file name and that parent |
| Paths.PartsWellFormed | src/env/binary_interface.cc:85-86 | `filename()` holds no separator, and a path without one is all file name with an empty parent |
| SortedSets.InsertKeepsOrder | src/base/types.hh:64-73 | `std::set::insert` keeps the set ascending and adds exactly the new element |
| SortedSets.AscendingUnique | src/base/types.hh:64-73 | an ascending set is fixed by its elements, so iteration order is determined by contents |
| SortedSets.PutMeaning | src/base/types.hh:79-82 | after storing into a `std::map`, the key holds the new value, every other key keeps its old one, and the keys stay ascending |
| SortedSets.PutKeys | src/base/types.hh:79-82 | storing into a map adds that key and no other |
| SortedSets.PutEntries | src/base/types.hh:79-82 | every entry after storing is either the one stored or one that was there before |
| Paths.LastSlash | src/env/binary_interface.cc:85-86 | the separator `filename()` splits at is a '/' with none after it, and "no separator" only when the path holds none |
| Paths.LastSlashIsLast | src/env/binary_interface.cc:85-86 | a '/' with none after it is the one `filename()` splits at |
| Paths.ElementsAreSplit | src/types.cc:156-157 | `lexically_normal` reads a path as the pieces between its '/' separators, exactly as `Split` cuts them |
| Paths.NormalSegmentsClean | src/types.cc:156-157 | the walk of `lexically_normal` leaves no empty and no "." segment, and ".." only in a leading run of a relative path |
| Paths.NormalSegmentsFrom | src/types.cc:156-157 | every segment the walk keeps is one of the path's own segments |
| Paths.NormalSegmentsFixed | src/types.cc:156-157 | segments that are already clean go through the walk unchanged |
| Paths.NormalSegmentsSkipEmpty | src/types.cc:156-157 | an empty segment (a doubled, leading or final separator) at either end changes nothing in the walk |
| Paths.NormalSegmentsCancel | src/types.cc:156-157 | a directory followed by ".." cancels out |
| Paths.LexicallyNormalIdempotent | src/types.cc:156-157 | normalising a lexically normal path gives it back unchanged |
| Paths.NormalAfterDot | src/types.cc:156-157 | a leading "./" is dropped: "./f" becomes "f" for a plain file name |
| Paths.NormalDropsDot | src/types.cc:156-157 | "./a.cpp" becomes "a.cpp" |
| Defaults.ModifyMeaning | src/env/defaults.cc:6-15 | `affix::modify` keeps the directory and makes the file name prefix + name + suffix |
| Defaults.ModifyJoin | src/env/defaults.cc:6-15 | modifying `dir / name` gives `dir / (prefix + name + suffix)` |
| Defaults.ModifySuffix | src/env/defaults.cc:6-15 | an affix without a prefix only appends its suffix to the file name |
| Defaults.PosixNames | src/env/defaults.cc:24-29 | off Windows, executables keep their name, objects end in ".o", static libraries become "lib" + name + ".a" and shared ones "lib" + name + ".so", in the same directory |
| Defaults.WindowsNames | src/env/defaults.cc:19-23 | on Windows, the suffixes are ".exe", ".obj", ".lib" and ".dll" with no prefix |
| BinaryInterface.Append | src/env/binary_interface.cc:5-9 | an empty directory stays empty; a non-empty one is kept as a prefix and ends with the separator, adding at most one character |
| BinaryInterface.Prepend | src/env/binary_interface.cc:11-16 | an empty extension stays empty; a non-empty one is kept as a suffix and starts with the dot, adding at most one character |
| BinaryInterface.AppendPrependIdempotent | src/env/binary_interface.cc:5-16 | applying `append` or `prepend` a second time changes nothing |
| BinaryInterface.BinaryInterface.constructor | src/env/binary_interface.cc:19-26 | the partition separator is '-' with partition support and '.' without; the directory gets a trailing '/' and the extension a leading '.' |
| BinaryInterface.BinaryInterface.AsInterface | src/env/binary_interface.cc:28-41 | the interface file is the directory, then the module, then the separator and the partition when there is one, then the extension, and its length is what is reserved |
| BinaryInterface.BinaryInterface.AsInterfaceInjective | src/env/binary_interface.cc:28-41 | for module names without the separator, different module names get different interface files |
| BinaryInterface.BinaryInterface.StemSplit | src/env/binary_interface.cc:35-38 | the stem starts with the module; the separator and partition follow exactly when the partition is non-empty |
| BinaryInterface.RelativePath | src/env/binary_interface.cc:80 | `relative_path()` drops only the leading separators |
| BinaryInterface.BinaryInterface.BmiOf | src/env/binary_interface.cc:80-84 | a header unit's BMI is the directory, the header's relative path and the extension |
| BinaryInterface.BinaryInterface.FromModule | src/env/binary_interface.cc:43-52 | names starting with '<' or '"' go to `header_module`; all others become a module reference to `as_interface` and change nothing |
| BinaryInterface.BinaryInterface.HeaderModule | src/env/binary_interface.cc:73-94 | a header the locator cannot find gives no artifact and changes no header module; a found one is stored under its BMI path and returned as a header-module file reference |
| BinaryInterface.HeaderTargetsLayout | src/env/binary_interface.cc:54-71 | each header module adds two targets: the EMIT_INCLUDE target with the header as input, then the plain include target |
| BinaryInterface.BinaryInterface.AddTargets | src/env/binary_interface.cc:54-71 | the header targets are appended to the list, and EMIT_INCLUDE is set in the needed rules iff there is a header module |
| Types.FilenameForms | src/base/types.hh:13-34 | an executable's file name is its name; libraries get "lib" and ".a", ".so" or ".mod" |
| Types.FilenameInjective | src/base/types.hh:25-34 | two projects of the same kind with the same file name are the same project |
| Types.ProjectLessIsStrictTotalOrder | src/base/types.hh:23 | the defaulted project order (name, then kind) is a strict total order |
| Types.IsEmptyMeaning | src/base/types.hh:49 | a module name is empty iff both the module and the partition are empty |
| Types.ModNameLessIsStrictTotalOrder | src/base/types.hh:52 | the defaulted module-name order (module, then partition) is a strict total order |
| Types.ToStringRoundTrip | src/types.cc:91-102 | `toString` is the module, or "module:part" for a partition, and for modules without ':' the name can be read back from it |
| Types.ToBMIInjective | src/types.cc:104-116 | for module names without '-', different names get different `toBMI` file names |
| Types.ToBMIMeetsPartition | src/types.cc:104-116 | a module whose name holds '-' gets the same `toBMI` file name as a partition: "a-b" and "a:b" both give "a-b.bmi" |
| Generator.AllRulesInOrder | src/base/generator.hh:31-46 | the rule enumeration lists the eight rules in declaration order, and ARCHIVE is LINK_STATIC, ordinal 4 |
| Generator.BitIsShift | src/base/generator.hh:57-59 | `bit(r)` is 1 shifted left by the rule's ordinal in a 64-bit word |
| Generator.BitsDistinct | src/base/generator.hh:57-59 | each rule's bit is non-zero and different rules have disjoint bits |
| Generator.SetThenHas | src/base/generator.hh:51-55 | after `set(r)`, `has(q)` holds iff it held before or q is r, so `set` never clears another rule |
| Generator.EmptyHasNothing | src/base/generator.hh:49-55 | an empty rule set has no rule |
| Generator.RuleTypes.constructor | src/base/generator.hh:49 | a new rule set has no bits set |
| Generator.RuleTypes.Set | src/base/generator.hh:51 | `set` ORs in the rule's bit; afterwards the rule is present and the others are as before |
| Generator.DefaultMessage | src/generator.cc:7-27 | every rule's default message has two parts, a text and then the OUTPUT variable |
| Generator.DefaultMessagesDistinct | src/generator.cc:7-27 | the messages of different rules differ and none is empty; ARCHIVE's starts "Linking CXX static library " and COMPILE's "Building CXX object " |
| Generator.BuildGenerator.constructor | src/base/generator.hh:110 | a new generator has no rules, setups or targets |
| Generator.BuildGenerator.SetRules | src/base/generator.hh:114-115 | `set_rules` replaces the rules and keeps setups and targets |
| Generator.BuildGenerator.SetSetups | src/base/generator.hh:117-122 | `set_setups` replaces the setups and keeps rules and targets |
| Generator.BuildGenerator.SetTargets | src/base/generator.hh:129-132 | `set_targets` replaces the targets and keeps rules and setups |
| Generator.BuildGenerator.RegisterSetup | src/base/generator.hh:123-127 | `register_setup` returns the old number of setups and appends exactly the new one, which is found at that index |
| Build.OrdersAreStrict | src/base/types.hh:23-52 | the orders of `std::set<mod_name>` and `std::set<project>` are strict total orders |
| Build.Analyze | src/types.cc:133-221 | every project keeps its order, subdirectory and sources; it exports exactly what its units export; it imports exactly what its units import that no project exports; it links each project exporting a module it imports and no other; no module requires itself; the module, import and export maps are exactly what the scanned units declare, in scanning order (Recorded) |
| Build.ScanProjects | src/types.cc:140-192 | after the first loop each project, in order and without links, exports what its units export and imports what they import minus its own exports, and the three maps are Recorded for every unit of every project |
| Build.ScanProject | src/types.cc:140-192 | one turn of that loop extends all of the above from the first k projects to the first k+1 |
| Build.AnalyzeProject | src/types.cc:140-192 | a project exports what its interface units declare and imports what its units import minus its own exports; the maps go from Recorded for the earlier units to Recorded for those plus the project's units |
| Build.ScanSource | src/types.cc:148-176 | a source the preprocessor fails on changes nothing; any other adds its unit, under the key the scanner's normaliser gives `subdir / source` (`lexically_normal`, as NormalisesLexically states), to the units the maps are Recorded for, and to the project's exports and imports |
| Build.AddUnit | src/types.cc:154-175 | the build after one unit is exactly the build before with that unit added (Adds): only its module's entry changes, the import map gains its imports under its path, the export map gains its path for a named interface |
| Build.DeclareUnit | src/types.cc:159-168 | a named interface becomes its module's interface and its path's export; the project joins the module's libraries; a unit that is not an interface is appended to the module's sources; the requirements and every other entry are unchanged |
| Build.AddImports | src/types.cc:170-175 | the module's requirements become exactly the old ones plus every import other than the module itself; the import map's entry for the path becomes the old entry (or nothing) followed by all imports, and is not created when there are none; every other module, the exports and the projects are unchanged; the project imports each import |
| Build.AddImport | src/types.cc:171-174 | one import: added to the requirements unless it is the module itself, to the project's imports, and appended under the unit's path |
| Build.AddsRecords | src/types.cc:154-175 | recording one more unit as Adds describes keeps the module keys, libraries, requirements, sources, interfaces, import map and export map exactly what the extended unit list declares |
| Build.UndeclaredHasNoFiles | src/types.cc:161-168 | a module name no unit declares has no sources and no interface |
| Build.RemoveListed | src/types.cc:178-192 | the `remove_if` keeps exactly the imports the project does not export |
| Build.Contains | src/types.cc:182-189 | the search loop finds a module iff the set holds it |
| Build.ResolveLinks | src/types.cc:195-218 | each project keeps its sources and exports; its imports exported anywhere are turned into links to the exporting projects and dropped, and its links stay a set |
| Build.LinkProject | src/types.cc:196-217 | one project's imports are resolved: an import exported by some project is removed and every project exporting it is linked |
| Build.Exporters | src/types.cc:201-214 | the search reports whether any project exports the module and inserts every exporting project into the links |
| Build.SourceKeyIsNormal | src/types.cc:156-157 | the key a scanned unit is filed under, `(subdir / source).lexically_normal()`, is itself lexically normal |
| Build.KeyedLookupFinds | src/types.cc:148-176 | looked up by the lexically normal key `analyze` files it under, every scanned source with imports is in the import map with all of them, and every named interface is in the export map |
| Build.RawLookupMisses | src/compilers/gcc.cc:137-141 | a source listed as "./a.cpp" whose unit has imports is filed under "a.cpp", and the raw key `subdir / filename` the generators look up is not in the import map |
| Ascii.IsAsciiMeaning | libs/libcell/include/cell/ascii.hh:167-170 | `isascii_`, which masks the C `int` with `~0x7f`, holds iff the value is in 0..127 (negative values included) |
| Ascii.ClassRanges | libs/libcell/include/cell/ascii.hh:23-160 | the table gives exactly the classic classes: digits '0'..'9', octal digits '0'..'7', hex digits and A-F/a-f, upper and lower case letters, white space as space and 9..13, inline space as space, tab, VT and FF (not LF or CR), control as 0..31 and 127 |
| Ascii.RangesAgreeWithTable | libs/libcell/include/cell/ascii.hh:153-228 | the range tests of `isgraph` and `isprint` agree with the table, a blank is an inline space, and bytes 128..255 belong to no class |
| Ascii.ClassesPartitionAscii | libs/libcell/include/cell/ascii.hh:23-152 | every ASCII character is control, punctuation, alphanumeric or the space, and no character is in two of those classes (so '_' is punctuation, not alpha) |
| Cell.Filtered | libs/libcell/include/cell/parser.hh:109-116 | `filter` never moves backwards or past the end of the text |
| Cell.FilteredStops | libs/libcell/include/cell/parser.hh:113-115 | after `filter`, the skip parser cannot make progress from where it stopped |
| Cell.FilteredIdempotent | libs/libcell/include/cell/parser.hh:109-116 | filtering again from where `filter` stopped does not move |
| Cell.Filter | libs/libcell/include/cell/parser.hh:109-116 | the `while` loop ends at the filtered position with the reports of every skip attempt |
| Cell.CharParsersPlain | libs/libcell/include/cell/character.hh:13-78 | with nothing to skip, `literal_character`, `one_of_characters`, `any_character` and `basic_is_a` consume exactly one character iff it is the one (or of the class) they accept, and nothing otherwise |
| Cell.SingleCharIsLiteral | libs/libcell/include/cell/character.hh:57-63 | `ch` of a single character accepts exactly what the literal character parser accepts |
| Cell.OneOfCharacters | libs/libcell/include/cell/character.hh:37-50 | the loop over the accepted characters succeeds iff the filtered character is among them, moving one character past it |
| Cell.LitChar | libs/libcell/include/cell/character.hh:13-21 | `literal_character` never moves backwards or past the end |
| Cell.AnyChar | libs/libcell/include/cell/character.hh:70-78 | `any_character` never moves backwards or past the end |
| Cell.IsAsWritten | libs/libcell/include/cell/ascii.hh:265-272 | the class test as written fails its range assertion exactly for bytes 0x80 and above, which arrive as negative `char` values |
| Cell.Utf8ByteFailsAsWritten | libs/libcell/include/cell/ascii.hh:265-272 | a UTF-8 lead byte such as 0xC3 trips that assertion |
| Cell.IsAgreesBelow128 | libs/libcell/include/cell/ascii.hh:153-160 | on 7-bit characters the corrected test agrees with the one as written; no byte of 0x80 or above is in any class |
| Cell.IsA | libs/libcell/include/cell/ascii.hh:269-277 | `basic_is_a::parse` never moves backwards or past the end |
| Cell.StringTok | libs/libcell/include/cell/string.hh:15-26 | `string_token` never moves backwards or past the end |
| Cell.StringTokRestores | libs/libcell/include/cell/string.hh:17-21 | a string token that fails leaves the position where it was |
| Cell.StringTokPlain | libs/libcell/include/cell/string.hh:15-26 | with nothing to skip, a string token succeeds iff the text continues with the literal, and then it consumes exactly the literal; an empty literal succeeds without consuming |
| Cell.StringToken | libs/libcell/include/cell/string.hh:15-26 | the loop walking a copy of the position returns exactly the string token's outcome |
| Cell.Eol | libs/libcell/include/cell/special.hh:9-24 | `end_of_line` never moves backwards or past the end |
| Cell.EolMeaning | libs/libcell/include/cell/special.hh:9-24 | `eol` succeeds iff a '\r' or '\n' comes next; it consumes two characters for "\r\n" and one otherwise, and nothing when it fails |
| Cell.Eof | libs/libcell/include/cell/special.hh:33-35 | `eof` succeeds iff the position is at the end and never consumes |
| Cell.Eps | libs/libcell/include/cell/special.hh:43-46 | `eps` always succeeds without consuming |
| Cell.Nothing | libs/libcell/include/cell/special.hh:54-57 | `nothing` always fails without consuming |
| Cell.ActionMeaning | libs/libcell/include/cell/parser.hh:148-159 | an action keeps its subject's outcome and position and reports the matched range iff the subject succeeded while actions were enabled |
| Cell.Peek | libs/libcell/include/cell/parser.hh:169-178 | `peek_parser` succeeds iff its subject does with actions disabled, and never moves the position |
| Cell.ActionFlag.constructor | libs/libcell/include/cell/parser.hh:132-135 | the per-thread flag starts enabled |
| Cell.ActionState.constructor | libs/libcell/include/cell/parser.hh:123-125 | entering an `action_state` remembers the flag and disables actions |
| Cell.ActionState.Release | libs/libcell/include/cell/parser.hh:126-128 | leaving it restores the remembered flag |
| CellOperators.Alternative | libs/libcell/include/cell/operators.hh:14-17 | the fold over the operands returns exactly what the left-to-right alternative does |
| CellOperators.AltOfRestoring | libs/libcell/include/cell/operators.hh:14-17 | with operands that restore on failure, the alternative succeeds iff some operand does, ending where the first succeeding operand ends |
| CellOperators.Sequence | libs/libcell/include/cell/operators.hh:40-53 | the fold over the operands returns exactly the sequence's outcome |
| CellOperators.SeqFromRestores | libs/libcell/include/cell/operators.hh:46-53 | when any operand fails, the sequence puts the position back at its start |
| CellOperators.SeqFromForward | libs/libcell/include/cell/operators.hh:40-53 | a sequence of forward-moving operands that succeeds ends between its start and the end of the text |
| CellOperators.SeqRestoring | libs/libcell/include/cell/operators.hh:40-53 | a sequence restores the position whenever it fails, whatever its operands do |
| CellOperators.DiffMeaning | libs/libcell/include/cell/operators.hh:71-79 | `a - b` fails without consuming when `b` matches, and otherwise is exactly `a` |
| CellOperators.NotNot | libs/libcell/include/cell/operators.hh:94-97 | `!` negates its subject's result and keeps its position, so `!!p` is `p` |
| CellRepeat.ZeroOrMore | libs/libcell/include/cell/repeat_operators.hh:12-16 | `*p` always succeeds, never leaves the text, and is the greedy repetition of `p` |
| CellRepeat.AfterTwice | libs/libcell/include/cell/repeat_operators.hh:14 | reports gathered over two stretches of a repetition concatenate in order |
| CellRepeat.StarStep | libs/libcell/include/cell/repeat_operators.hh:14 | one successful attempt of `*p` is followed by `*p` from where it ended |
| CellRepeat.OneOrMore | libs/libcell/include/cell/repeat_operators.hh:31-38 | `+p` fails iff the first attempt fails, and otherwise repeats greedily |
| CellRepeat.ExactlyN | libs/libcell/include/cell/repeat_operators.hh:75-82 | the counting loop of `repeat(n)` succeeds iff n consecutive attempts succeed, with no restore on failure |
| CellRepeat.ExactlyAdd | libs/libcell/include/cell/repeat_operators.hh:75-82 | `repeat(a + b)` is `repeat(a)` followed by `repeat(b)` from where it ended |
| CellRepeat.ExactlyConsumes | libs/libcell/include/cell/repeat_operators.hh:75-82 | n successful consuming attempts move at least n characters |
| CellRepeat.AtLeastN | libs/libcell/include/cell/repeat_operators.hh:95-104 | `repeat(n, inf)` succeeds iff n attempts succeed, then repeats greedily |
| CellRepeat.StarPlusAreAtLeast | libs/libcell/include/cell/repeat_operators.hh:12-38 | `repeat(0, inf)` is `*p` and `repeat(1, inf)` is `+p` |
| CellRepeat.BetweenN | libs/libcell/include/cell/repeat_operators.hh:130-142 | `repeat(l, u)` succeeds iff the first l attempts do, then makes at most u - l further successful attempts |
| CellRepeat.BetweenSpecialCases | libs/libcell/include/cell/repeat_operators.hh:53-82 | `repeat(n, n)` is `repeat(n)` and `repeat(0, 1)` is `-p`, which always succeeds |
| CellRepeat.ExactlyDoesNotRestore | libs/libcell/include/cell/repeat_operators.hh:77-79 | `repeat(2)('a')` on "ab" fails after consuming the 'a': the repetitions do not restore the position |
| Tokens.HashFromSnoc | libs/libcell/include/cell/tokens.hh:24-28 | each byte is XORed into the hash and then multiplied by the FNV prime, in 64-bit arithmetic |
| Tokens.HashIsFold | libs/libcell/include/cell/tokens.hh:19-30 | `ce_1a_hash` is the left fold of that step from the FNV offset basis |
| Tokens.HashKnownValues | libs/libcell/include/cell/tokens.hh:14-29 | the empty string hashes to the offset basis, and "a" to the published FNV-1a value 0xaf63dc4c8601ec8c |
| Tokens.HashSnoc | libs/libcell/include/cell/tokens.hh:24-28 | hashing one more byte is one more step of the fold |
| Tokens.Ce1aHash | libs/libcell/include/cell/tokens.hh:19-30 | the loop computes exactly the 64-bit FNV-1a hash of the view |
| Tokens.KeyLessIsStrictTotalOrder | libs/libcell/include/cell/tokens.hh:107-111 | `set_entry` order (hash first, then key) is a strict total order |
| Tokens.SortedSplits | libs/libcell/include/cell/tokens.hh:61-71 | in a sorted table, every entry before one below a probe is below it too |
| Tokens.TokenTree.constructor | libs/libcell/include/cell/tokens.hh:38-44 | after construction the entries are sorted by (hash, key), each hashed from its key, and are a permutation of the given entries |
| Tokens.TokenTree.Swap | libs/libcell/include/cell/tokens.hh:73-79 | `swap` exchanges two entries and changes nothing else |
| Tokens.TokenTree.Partition | libs/libcell/include/cell/tokens.hh:84-90 | the partition loop and the pivot swap leave a permutation of the range with everything below the pivot before it and nothing below it after it |
| Tokens.TokenTree.PartitionNext | libs/libcell/include/cell/tokens.hh:86-88 | one step of the partition loop keeps the entries before `m` below the pivot and those between `m` and `i` not below it |
| Tokens.TokenTree.SortImpl | libs/libcell/include/cell/tokens.hh:80-95 | `sort_impl` sorts the range as a permutation of it and leaves the rest of the array alone |
| Tokens.SwapKeepsParted | libs/libcell/include/cell/tokens.hh:87-88 | swapping an entry below the pivot into place keeps the partition invariant |
| Tokens.PlacePivot | libs/libcell/include/cell/tokens.hh:90 | the final swap puts the pivot between the two parts |
| Tokens.SwapInRange | libs/libcell/include/cell/tokens.hh:73-79 | a swap inside a range keeps the range a permutation and the rest unchanged |
| Tokens.SortedAfterRecursion | libs/libcell/include/cell/tokens.hh:92-93 | sorting both sides of a placed pivot sorts the whole range |
| Tokens.JoinSorted | libs/libcell/include/cell/tokens.hh:92-93 | two sorted parts around a pivot that separates them form a sorted sequence |
| Tokens.TokenTree.LowerBound | libs/libcell/include/cell/tokens.hh:63 | `std::lower_bound` returns the first entry not below the probe |
| Tokens.NoKeyPastOtherHash | libs/libcell/include/cell/tokens.hh:64-70 | once the scan reaches a different hash, no later entry holds the key looked for |
| Tokens.TokenTree.Find | libs/libcell/include/cell/tokens.hh:57-71 | `find` returns an entry with an equal key iff one exists, and `end()` otherwise |
| Tokens.TokenTree.Has | libs/libcell/include/cell/tokens.hh:49-51 | `has` holds iff some entry's key equals the tested string |
| HiliteToken.LessMeaning | libs/libhilite/include/hilite/hilite.hh:45-52 | tokens order by ascending start; with equal starts the longer token comes first; with equal ranges the lower kind comes first; no token is below one that starts earlier |
| HiliteToken.SameIsEquality | libs/libhilite/include/hilite/hilite.hh:53-58 | `==` holds iff start, end and kind are all equal |
| HiliteToken.LessIsStrictTotalOrder | libs/libhilite/include/hilite/hilite.hh:45-58 | `<` is irreflexive, transitive and asymmetric, and any two tokens are equal or ordered one way |
| HiliteLines.Wrap | libs/libhilite/src/hilite.cc:72 | `size_t` arithmetic stays below 2^64 and leaves in-range values alone |
| HiliteLines.InsertToken | libs/libhilite/src/hilite.cc:8-13 | inserting into a strictly ascending token list keeps it strictly ascending and adds exactly the new token |
| HiliteLines.SortUniqTokens | libs/libhilite/src/hilite.cc:8-13 | `sort_uniq` leaves the tokens strictly ascending (sorted, no equal neighbours) holding exactly the tokens it was given |
| HiliteLines.StrictlySortedUnique | libs/libhilite/src/hilite.cc:8-13 | a strictly ascending list is fixed by its elements, so `sort_uniq` has a single outcome |
| HiliteLines.InsertEndline | libs/libhilite/src/hilite.cc:8-13 | inserting a line end keeps the offsets strictly ascending, keeps every line end there was, and the new offset is present |
| HiliteLines.SortUniqEndlines | libs/libhilite/src/hilite.cc:8-13 | `sort_uniq` on line ends, which compare by offset, leaves each offset once in ascending order, all taken from the input |
| HiliteLines.InsertSorted | libs/libhilite/src/hilite.cc:67 | inserting into a sorted list keeps it sorted and adds the token once more |
| HiliteLines.SortTokens | libs/libhilite/src/hilite.cc:67 | `std::sort` of the broken tokens gives a sorted permutation of them |
| HiliteLines.Pieces | libs/libhilite/src/hilite.cc:15-31 | a token is cut into at least one and at most one more piece than there are line ends left |
| HiliteLines.PiecesMeaning | libs/libhilite/src/hilite.cc:15-31 | the pieces keep the token's kind, start where it starts and end where it ends; each cut stops before a line's end-of-line and the next piece starts after it, and cutting stops at the first line end the token does not cross |
| HiliteLines.BreakToken | libs/libhilite/src/hilite.cc:15-31 | the `break_token` loop appends exactly the token's pieces |
| HiliteLines.BreakLines | libs/libhilite/src/hilite.cc:33-52 | the nested loop of `break_lines` produces the recursive break of the token list |
| HiliteLines.BreakBefore | libs/libhilite/src/hilite.cc:43-46 | the inner loop breaks the waiting tokens that start before the current line end |
| HiliteLines.BreakLinesBreaksEach | libs/libhilite/src/hilite.cc:33-52 | with line ends ascending and tokens ascending by start, `break_lines` breaks every token against exactly the line ends after its start |
| HiliteLines.BreakEachPastEnd | libs/libhilite/src/hilite.cc:49 | tokens starting at or after every line end are copied unbroken |
| HiliteLines.FirstAfter | libs/libhilite/src/hilite.cc:42-43 | the first line end after a position lies between the search start and the end of the list |
| HiliteLines.LineSizes | libs/libhilite/src/hilite.cc:69-78 | rewriting the sizes keeps one entry per line end |
| HiliteLines.LinesTile | libs/libhilite/src/hilite.cc:69-78 | each line's size is the next offset minus its own offset minus the next end-of-line's size; the last line runs to the end of the text; so lines and ends-of-line tile the text |
| HiliteLines.LineSizesKeepOffsets | libs/libhilite/src/hilite.cc:69-78 | rewriting the sizes keeps every offset, and so their order |
| HiliteLines.RewriteSizes | libs/libhilite/src/hilite.cc:69-78 | the loop and the clamped last size compute exactly `LineSizes` |
| HiliteLines.TakeCount | libs/libhilite/src/hilite.cc:90-98 | a line never takes more tokens than are left |
| HiliteLines.TakeCountMeaning | libs/libhilite/src/hilite.cc:90-98 | a line takes the tokens that end within it, stopping at the first that does not |
| HiliteLines.Merged | libs/libhilite/src/hilite.cc:107-119 | merging never adds tokens, and the last merged token ends where the last token ended |
| HiliteLines.MergedLeavesNoTouchingWhitespace | libs/libhilite/src/hilite.cc:107-119 | after merging, no whitespace token starts where the previous whitespace token ended |
| HiliteLines.MergeWhitespace | libs/libhilite/src/hilite.cc:107-119 | the merge loop computes exactly the merged line |
| HiliteLines.MergedNext | libs/libhilite/src/hilite.cc:109-114 | a whitespace token touching the previous whitespace token extends the last kept token; any other token is kept after it |
| HiliteLines.Shifted | libs/libhilite/src/hilite.cc:121-124 | the tokens passed to `on_line` keep their kinds and are the line's tokens made relative to the line's start |
| HiliteLines.ShiftLine | libs/libhilite/src/hilite.cc:121-124 | the shifting loop computes exactly the shifted tokens |
| HiliteLines.LinesInOrder | libs/libhilite/src/hilite.cc:82-127 | `on_line` is called once per line end, with that line's offset and size, in strictly ascending offset order |
| HiliteLines.LinesFrom | libs/libhilite/src/hilite.cc:82-127 | one line per remaining line end, in order: the m-th line belongs to the m-th line end |
| HiliteLines.Calls | libs/libhilite/src/hilite.cc:82-126 | one `on_line` call per line, the m-th carrying the offset and size of the m-th line's end |
| HiliteLines.CountLine | libs/libhilite/src/hilite.cc:90-98 | the counting loop finds how many tokens end within the line |
| HiliteLines.CollectLine | libs/libhilite/src/hilite.cc:83-126 | one round of the per-line loop makes the call with the line's merged tokens made relative to the line |
| HiliteLines.CollectLines | libs/libhilite/src/hilite.cc:80-127 | the per-line loop makes exactly the calls `Calls` gives for the lines of `LinesFrom` |
| HiliteResult.GrammarResult.constructor | libs/libhilite/include/hilite/hilite_impl.hh:32-33 | a fresh result holds exactly one line end, {0, 0}, and no token |
| HiliteResult.GrammarResult.Emit | libs/libhilite/include/hilite/hilite_impl.hh:36-48 | a NEWLINE report appends the line end {end, end - start} and no token; any other kind appends the token {start, end, kind} and no line end |
| HiliteResult.GrammarResult.ProduceLines | libs/libhilite/src/hilite.cc:60-128 | `produce_lines` de-duplicates and sorts line ends and tokens, breaks tokens at line ends, rewrites the sizes, empties the token list, and makes one `on_line` call per line end in ascending order with that line's offset and size |
| HiliteResult.SortAndBreak | libs/libhilite/src/hilite.cc:61-67 | the two `sort_uniq` calls, `break_lines` and the final sort give ascending unique line ends and tokens and a sorted permutation of the broken tokens |
| HiliteResult.GrammarValue.constructor | libs/libhilite/include/hilite/hilite_impl.hh:59 | a value remembers its result and the start of the text |
| HiliteResult.GrammarValue.Emit | libs/libhilite/include/hilite/hilite_impl.hh:61-67 | `grammar_value::emit` turns the matched range into offsets from the start of the text and hands them to the result |
| HiliteResult.GrammarValue.EmitAll | libs/libhilite/include/hilite/hilite_impl.hh:61-73 | a run of reports lands in the result in order: newlines as line ends, everything else as tokens |
| HiliteResult.OfSnoc | libs/libhilite/include/hilite/hilite_impl.hh:36-48 | one more report adds exactly its own line end or token |
| HiliteResult.EveryReportLands | libs/libhilite/include/hilite/hilite_impl.hh:36-48 | every report becomes exactly one line end or one token, no token has the NEWLINE kind, and every token is a report |
| HiliteResult.AtEolMeaning | libs/libhilite/include/hilite/hilite_impl.hh:86 | `ahead(eol)` succeeds iff the next character is '\r' or '\n', and never moves |
| HiliteResult.NextEol | libs/libhilite/include/hilite/hilite_impl.hh:86-87 | the skipping loop stops at the first end-of-line character at or after the position, or at the end |
| HiliteResult.RestartAdvances | libs/libhilite/include/hilite/hilite_impl.hh:84-88 | each round of the restart loop moves the position forward |
| HiliteResult.StartsAtLineEnds | libs/libhilite/include/hilite/hilite_impl.hh:84-88 | the grammar is started at the beginning and then only at line ends, at strictly increasing positions |
| HiliteResult.ParseWithRestart | libs/libhilite/include/hilite/hilite_impl.hh:76-89 | `parse_with_restart` ends with begin at the end of the text, with every report of every restart recorded in order |
| HiliteResult.SkipToEol | libs/libhilite/include/hilite/hilite_impl.hh:86-87 | the skipping loop ends at the next end-of-line |
| HiliteResult.ReportsStep | libs/libhilite/include/hilite/hilite_impl.hh:85-87 | the reports of a whole run are those of the first round followed by those from the next line end |
| HiliteResult.OfAppend | libs/libhilite/include/hilite/hilite_impl.hh:61-67 | converting two runs of reports is converting their concatenation |
| Splice.EolEnd | src/cxx/scanner.cc:9-21 | `find_eol_end` returns one or two positions past `pos`, never past the end, or "not found" |
| Splice.EolEndSpans | extras/hilite-cxx/cxx.cc:68-80 | everything `find_eol_end` steps over is '\r' or '\n', so it matches only "\r", "\n" or "\r\n" |
| Splice.SpliceEnd | src/cxx/scanner.cc:27 | a splice ends two or three characters after its backslash, within the text |
| Splice.FindSplice | src/cxx/scanner.cc:23-31 | the search finds the first backslash-and-end-of-line at or after `pos` with its end, and "not found" only when there is none |
| Splice.BackslashWithoutEolHangs | src/cxx/scanner.cc:23-31 | the search as written never ends on "\a" or on a header name such as `"dir\file.h"` |
| Splice.FindDelEolAsWrittenAgrees | extras/hilite-cxx/cxx.cc:82-90 | where the search as written ends, it finds what the corrected search finds |
| Splice.WalkBackAsWritten | src/cxx/scanner.cc:42-44 | the walk back as written starts on the splice's end position, stops on a backslash at or before it, and reads past the text when the splice ends it |
| Splice.FoundHasShape | src/cxx/scanner.cc:27-28 | a found end lies two or three characters after a backslash at or after the search start |
| Splice.AdjacentSplicesKeepFirst | src/cxx/scanner.cc:41-50 | on two splices in a row the loop as written keeps the first splice ("\\\n\\\nx" gives "\\\nx" instead of "x"), and a splice ending the text makes it read past the end |
| Splice.FindDelEol | src/cxx/scanner.cc:23-31 | the corrected loop returns the end of the first splice at or after `pos`, or none when there is no splice |
| Splice.RemoveSplicesFrom | src/cxx/scanner.cc:33-54 | removing splices never lengthens the text |
| Splice.CopiedUpTo | src/cxx/scanner.cc:46 | text up to the next splice is copied unchanged |
| Splice.RemoveSplicesUnchanged | src/cxx/scanner.cc:33-36 | the text comes back unchanged iff it holds no backslash-and-end-of-line |
| Splice.WalkBack | src/cxx/scanner.cc:42-44 | the corrected walk back from a splice's end stops on that splice's own backslash |
| Splice.RemoveFirstSplice | src/cxx/scanner.cc:41-50 | one round of the loop copies the text before the splice and carries on after it |
| Splice.RemoveDeletedEols | src/cxx/scanner.cc:33-54 | the scanner's corrected `remove_deleted_eols` is the input with every backslash-and-end-of-line deleted |
| Splice.RemoveDeletedEolsHilite | extras/hilite-cxx/cxx.cc:92-113 | the highlighter's copy returns an empty string when there is no splice, and otherwise the text with every splice deleted |
| CxxParsers.DeletedEolIsSplice | extras/hilite-cxx/cxx.cc:650-672 | the skip parser succeeds exactly on a backslash followed by an end of line, ends where that splice ends, and reports two tokens (deleted newline, newline) when actions are on |
| CxxParsers.EscapeEnds | extras/hilite-cxx/cxx.cc:234-283 | an escape that succeeds ends past its letter within the text; one that fails puts the position back on its backslash |
| CxxParsers.CxxCharMeaning | extras/hilite-cxx/cxx.cc:202-225 | after the skip filter: the end of text, an end of line or the delimiter stop the parser where it stands; a plain character is taken; a failed escape restores the backslash position |
| CxxParsers.CxxCharAdvances | extras/hilite-cxx/cxx.cc:202-283 | a successful literal character consumes at least one character and stays within the text |
| CxxParsers.EscapeBodyStays | extras/hilite-cxx/cxx.cc:237-273 | the digits of `\u`, `\U`, `\x` and `\0` escapes stay within the text |
| CxxParsers.ExactlyStays | extras/hilite-cxx/cxx.cc:239-248 | `repeat(n)` of a forward parser stays between the start and the end of the text |
| CxxParsers.XDigitsForward | extras/hilite-cxx/cxx.cc:239-266 | the hex- and octal-digit parsers move forward within the text and consume a character when they succeed |
| CxxParsers.StarForward | extras/hilite-cxx/cxx.cc:257-266 | `*p` of a forward parser stays between the start and the end of the text |
| CxxParsers.EndDelim | extras/hilite-cxx/cxx.cc:392-404 | `parse_end_delim` ends between its start and the end of the text |
| CxxParsers.EndDelimMeaning | extras/hilite-cxx/cxx.cc:392-404 | the text read equals the same-length start of the delimiter; it accepts iff the whole delimiter matched or the text ran out, and on rejection the next characters differ |
| CxxParsers.ParseEndDelim | extras/hilite-cxx/cxx.cc:392-404 | the comparison loop computes the end-delimiter function |
| CxxParsers.DCharForward | extras/hilite-cxx/cxx.cc:291-293 | a raw-string delimiter character (any but space, parentheses, backslash, control white space and '"') moves forward within the text |
| CxxParsers.RawStringOverrun | extras/hilite-cxx/cxx.cc:365-375 | on `R"(` followed by a line splice that ends the text, the inner loop as written steps past the end |
| CxxParsers.ToClose | extras/hilite-cxx/cxx.cc:365-375 | the corrected inner loop ends past its start and within the text, or at once at the end |
| CxxParsers.ToCloseAgrees | extras/hilite-cxx/cxx.cc:365-375 | wherever the loop as written stays inside the text, the corrected loop ends at the same place with the same reports |
| CxxParsers.ScanToClose | extras/hilite-cxx/cxx.cc:365-375 | the inner loop computes the corrected inner-loop function |
| Cell.PrefixedTwice | extras/hilite-cxx/cxx.cc:378-386 | reports gathered over two rounds of the outer loop concatenate in order |
| CxxParsers.RawBodyFails | extras/hilite-cxx/cxx.cc:365-388 | a raw string that fails has read to the end of the text |
| CxxParsers.RawBodyCloses | extras/hilite-cxx/cxx.cc:365-388 | a raw string succeeds only after a ')' followed by the whole opening delimiter, past its start |
| CxxParsers.ToCloseFindsParen | extras/hilite-cxx/cxx.cc:365-375 | the inner loop ends just after a ')' or at the end of the text |
| CxxParsers.RawParseNeeds | extras/hilite-cxx/cxx.cc:353-361 | the raw mark is set iff '"' follows the 'R', and a missing '(' after the delimiter fails |
| CxxParsers.ParseRaw | extras/hilite-cxx/cxx.cc:348-389 | `parse_raw` computes the raw-string function |
| CxxParsers.EncodingPrefix | extras/hilite-cxx/cxx.cc:295-300 | the encoding prefix alternatives stay within the text |
| CxxParsers.StringLiteralRestores | extras/hilite-cxx/cxx.cc:315-345 | a string literal that fails leaves the position where it started; the raw mark is set iff an 'R' and a '"' follow the prefix |
| CxxParsers.TokenName | extras/hilite-cxx/cxx.cc:681-695 | a token kind has a non-empty name iff it is one of the 36 kinds the two X-macro lists declare |
| CxxParsers.TokenNames1 | libs/libhilite/include/hilite/hilite.hh:9-12 | `token_to_string` names whitespace, newline, line and block comments by the spelling of their enumerators, at the values the enumerations give them |
| CxxParsers.TokenNames2 | libs/libhilite/include/hilite/hilite.hh:13-16 | `token_to_string` names identifier, keyword, module name and the first known identifier by the spelling of their enumerators, at the values the enumerations give them |
| CxxParsers.TokenNames3 | libs/libhilite/include/hilite/hilite.hh:17-20 | `token_to_string` names the other two known identifiers, punctuator and number by the spelling of their enumerators, at the values the enumerations give them |
| CxxParsers.TokenNames4 | libs/libhilite/include/hilite/hilite.hh:21-24 | `token_to_string` names the character kinds by the spelling of their enumerators, at the values the enumerations give them |
| CxxParsers.TokenNames5 | libs/libhilite/include/hilite/hilite.hh:25-28 | `token_to_string` names the string kinds by the spelling of their enumerators, at the values the enumerations give them |
| CxxParsers.TokenNames6 | libs/libhilite/include/hilite/hilite.hh:29-32 | `token_to_string` names escape sequence, raw string, meta and meta identifier by the spelling of their enumerators, at the values the enumerations give them |
| CxxParsers.TokenNames7 | extras/hilite-cxx/hilite/cxx.hh:5-8 | `token_to_string` names deleted newline, the two header names and the module declaration by the spelling of their enumerators, at the values the enumerations give them |
| CxxParsers.TokenNames8 | extras/hilite-cxx/hilite/cxx.hh:9-12 | `token_to_string` names module export and import, universal character name and macro name by the spelling of their enumerators, at the values the enumerations give them |
| CxxParsers.TokenNames9 | extras/hilite-cxx/hilite/cxx.hh:13-16 | `token_to_string` names macro argument list (32), macro argument (33), variadic arguments and replacement by the spelling of their enumerators, at the values the enumerations give them |
| Scanner.AbsorbAllFlags | src/cxx/scanner.cc:63-88 | after `is_decl` has seen a line's tokens, each flag (export, declaration, import, legacy header) is set iff a token of its kind was among them |
| Scanner.NotDecl | src/cxx/scanner.cc:96-99 | the first `remove_if` keeps exactly the tokens `is_decl` does not claim |
| Scanner.InName | src/cxx/scanner.cc:90-103 | the second `remove_if` keeps exactly the tokens starting inside the recorded name |
| Scanner.InsertByStart | src/cxx/scanner.cc:105-109 | placing one token into the sorted run adds exactly that token |
| Scanner.SortByStart | src/cxx/scanner.cc:105-109 | `stable_sort` by start is a permutation of its input |
| Scanner.InsertSorted | src/cxx/scanner.cc:105-109 | placing a token into a run sorted by start keeps it sorted and adds only that token |
| Scanner.SortByStartSorted | src/cxx/scanner.cc:105-109 | the sort leaves the tokens ordered by start |
| Scanner.AtStartAppend | src/cxx/scanner.cc:105-109 | the tokens with a given start in two runs are those of the first followed by those of the second |
| Scanner.AtStartSingle | src/cxx/scanner.cc:105-109 | a single token has the given start or is dropped |
| Scanner.InsertStable | src/cxx/scanner.cc:105-109 | placing a token after its equals keeps the earlier tokens of each start ahead of it |
| Scanner.InsertStableStep | src/cxx/scanner.cc:105-109 | placing a token before a later-starting last element keeps the stable order of each start |
| Scanner.SortByStartStable | src/cxx/scanner.cc:105-109 | the sort keeps tokens with the same start in their original order |
| Scanner.FilteredMeaning | src/cxx/scanner.cc:95-110 | after `filter` the tokens are sorted by start and are exactly the non-declaration tokens inside the name's range |
| Scanner.DeclInfo.constructor | src/cxx/scanner.cc:56-61 | a fresh `decl_info` has every flag clear and an empty name range |
| Scanner.DeclInfo.IsDecl | src/cxx/scanner.cc:63-88 | `is_decl` records what the token says and answers whether it is a declaration token (export, module, import or module name; header names are recorded but kept) |
| Scanner.DeclInfo.Filter | src/cxx/scanner.cc:95-110 | `filter` computes the flags and the kept, sorted tokens |
| Scanner.Lowest | src/cxx/scanner.cc:242-246 | the lowest index at or after a start holding the bracket, or the size when none does |
| Scanner.PoppedMeaning | src/cxx/scanner.cc:237-249 | a matching top is popped; otherwise the stack is cut below its lowest matching entry so no expectation of that bracket remains; with no match nothing changes; the result is always a prefix of the stack |
| Scanner.PopUndoesPush | src/cxx/scanner.cc:236-240 | `pop` of a bracket just pushed restores the stack |
| Scanner.Substr | src/cxx/scanner.cc:150-186 | `substr(pos, count)` yields at most `count` characters |
| Scanner.CollectSucceeds | src/cxx/scanner.cc:187-211 | a declaration's name is read iff every token is an identifier, header name or one-character punctuator and at most one ':' is seen |
| Scanner.DeclareMeaning | src/cxx/scanner.cc:213-233 | a module declaration names the unit, which is an interface iff exported, and an implementation imports its own interface; a named import adds one entry; a header import adds one only when it has a name and no partition; anything else changes nothing |
| Scanner.FilteredInLine | src/cxx/scanner.cc:95-110 | filtering keeps the tokens within their line |
| Scanner.DeclarationsOnlyOutsideBrackets | src/cxx/scanner.cc:145-148 | declarations are read only when no bracket is open; inside braces or parentheses, and on lines that do not start with a declaration token, the unit stays as it is |
| Scanner.Callback.constructor | src/cxx/scanner.cc:126-127 | a callback starts with the text, no open bracket and an empty unit |
| Scanner.Callback.Push | src/cxx/scanner.cc:236 | `push` appends the expected closing bracket |
| Scanner.Callback.Pop | src/cxx/scanner.cc:237-249 | the loop computes the popped stack and leaves the unit alone |
| Scanner.Callback.OnModule | src/cxx/scanner.cc:176-234 | `on_module` updates the unit as a declaration line says and leaves the brackets alone |
| Scanner.Callback.OnLine | src/cxx/scanner.cc:142-174 | `on_line` updates the brackets and the unit as one line's effect says |
| Scanner.ReadNames | src/cxx/scanner.cc:183-211 | the loop over the filtered tokens computes the module and partition names, or gives up |
| Scanner.ResolvedMeaning | src/cxx/scanner.cc:259-272 | after the fix-up every import names a module; named imports without a partition are kept; a bare partition import of a named unit becomes that unit's partition; nothing else is added |
| Scanner.ResolveImports | src/cxx/scanner.cc:259-272 | the fix-up loop and the erase compute the resolved imports |
| Scanner.ScanImportsNamed | src/cxx/scanner.cc:254-275 | every import `scan` returns names a module |
| Scanner.ScanText | src/cxx/scanner.cc:254-275 | `scan` feeds every line to the callback, then resolves the imports |
| EnvPath.NonEmptyMeaning | src/env/path.cc:36 | dropping empty pieces keeps exactly the non-empty ones and never adds one |
| EnvPath.PathDirsMeaning | src/env/path.cc:15-40 | the intended `PATH` directories are exactly the non-empty pieces between ':' separators, none holding a separator |
| EnvPath.ClosedDirsDropTail | src/env/path.cc:28-37 | the loop as written yields the intended directories minus the piece after the last separator |
| EnvPath.PathTailDropped | src/env/path.cc:28-37 | with `PATH=a:b` the loop as written returns only `a`, although the entries are `a` and `b` |
| EnvPath.CollectClosed | src/env/path.cc:28-37 | the loop collects every separator-closed non-empty piece and leaves `prev` at the start of the last piece |
| EnvPath.CollectNext | src/env/path.cc:31-37 | one character of the loop keeps the loop invariant |
| EnvPath.SplitSnoc | src/env/path.cc:31-37 | one more character either opens an empty piece (a separator) or grows the last piece |
| EnvPath.ExtendPiece | src/env/path.cc:33 | a non-separator character joins the piece being read |
| EnvPath.ClosePiece | src/env/path.cc:34-36 | a separator closes the piece since `prev`, kept when not empty |
| EnvPath.GetPathAsWritten | src/env/path.cc:15-40 | `getPATH` as written: nothing for an unset or empty variable, else the separator-closed directories |
| EnvPath.GetPath | src/env/path.cc:15-40 | the corrected `getPATH` returns every non-empty directory of the variable |
| EnvPath.FirstRegularMeaning | src/env/path.cc:48-57 | the search finds nothing iff no directory holds the program as a regular file, and otherwise the first one that does |
| EnvPath.FullPathSearch | src/env/path.cc:42-58 | `fullpath` returns a name holding a separator as it is, else the first `PATH` hit, else the bare name (corrected: it searches the full `PATH` list of `EnvPath.GetPath`, see the src/env/path.cc:28-37 row of Findings) |
| EnvPath.CandidatesMeaning | src/env/path.cc:116-171 | the candidate names all sit in the tool's directory; the bare name is tried last, the suffixed name just before it, and the triple-prefixed names first |
| EnvPath.Which | src/env/path.cc:116-173 | `paths::which` returns the compiler for the compiler tool, else the first existing candidate, else the `PATH` search (corrected: the `PATH` search uses `EnvPath.GetPath`, see the src/env/path.cc:28-37 row of Findings) |
| EnvPath.DashWalk | src/env/path.cc:222-230 | the walk counts at most three dashes, each found at least two characters past the previous one, and remembers the last |
| EnvPath.TripleMeaning | src/env/path.cc:212-240 | a valid result has the file's directory as root, an empty or version suffix, and the file name is the tool (plus suffix) after an optional triple of at least four characters and a dash; an invalid one means the name is neither the tool nor the versioned tool |
| EnvPath.TripleSplit | src/env/path.cc:232-236 | cutting the name at the last dash gives a triple and a tool name that read back as the name |
| EnvPath.TripleFound | src/env/path.cc:212-240 | a name made of three dash-free words and the (versioned) tool breaks into those words as the triple and the version as the suffix |
| EnvPath.WordsAt | src/env/path.cc:222-230 | the positions of the three words and their dashes in such a name |
| EnvPath.ThreeDashes | src/env/path.cc:222-230 | three dashes at least two apart with none between them are the ones the walk finds |
| EnvPath.WalkStep | src/env/path.cc:225-230 | one round counts the dash and searches again two characters further on |
| EnvPath.FindNext | src/env/path.cc:222-228 | the first dash since the start is what the search finds |
| EnvPath.WalkDashes | src/env/path.cc:222-230 | the loop computes the dash walk |
| EnvPath.BreakTriple | src/env/path.cc:212-240 | `break_triple` computes the triple function |
| CommandSplit.ReadArgAsWritten | src/env/path.cc:88-107 | the inner loop as written reads within the text and stops at once only on a stop character seen unescaped |
| CommandSplit.TakenAsWritten | src/env/path.cc:81-110 | one pass of the outer loop as written consumes at least one character and no more than the text |
| CommandSplit.ClosingQuoteReopens | src/env/path.cc:84-110 | as written, `"x"` splits into `x` and an empty word, because the closing quote is left in place and starts a new quoted argument; corrected, it splits into `x` alone |
| CommandSplit.EscapeNeverEnds | src/env/path.cc:88-103 | as written, once a backslash is seen inside double quotes the flag is never cleared, so `"\x" y` is one argument `x" y` |
| CommandSplit.EscapeEndsAtQuote | src/env/path.cc:88-103 | corrected, the escape covers one character and `"\x" y` splits into `x` and `y` |
| CommandSplit.SpaceThenWord | src/env/path.cc:76-79 | leading white space is skipped and an unquoted word is taken whole |
| CommandSplit.ReadArg | src/env/path.cc:88-107 | the corrected inner loop reads within the text and stops at once only on an unescaped stop character |
| CommandSplit.Taken | src/env/path.cc:81-110 | one corrected pass consumes at least one character and no more than the text |
| CommandSplit.UnquotedArg | src/env/path.cc:94-98 | outside quotes an argument runs to the first white space or quote and is taken verbatim, backslashes included |
| CommandSplit.SingleQuotedArg | src/env/path.cc:92-100 | inside single quotes nothing is escaped: the argument is the text up to the next single quote |
| CommandSplit.Escape | src/env/path.cc:100-103 | escaping a word never shortens it |
| CommandSplit.ReadEscaped | src/env/path.cc:88-107 | inside double quotes an escaped word reads back as itself, up to the closing quote |
| CommandSplit.QuotedRoundTrip | src/env/path.cc:75-111 | splitting the double-quoted, escaped words separated by spaces gives back the words, empty ones included |
| CommandSplit.Texts | src/env/path.cc:109-110 | the split words become text arguments one for one |
| CommandSplit.Others | src/env/path.cc:64-67 | the non-text arguments are all non-text |
| CommandSplit.OthersAppend | src/env/path.cc:63-67 | the non-text arguments of a concatenation are those of each part in order |
| CommandSplit.OthersOfTexts | src/env/path.cc:109-110 | split words hold no non-text argument |
| CommandSplit.SplitKeepsOthers | src/env/path.cc:63-67 | splitting keeps every non-text argument in order and adds none |
| CommandSplit.SplitAllAppend | src/env/path.cc:63-111 | splitting distributes over concatenation: each argument is split on its own |
| CommandSplit.ReadArgAt | src/env/path.cc:88-107 | the `for` loop over the text computes the argument read and where it stopped |
| CommandSplit.ReadArgStep | src/env/path.cc:89-106 | one character: an unescaped stop character ends the argument, a backslash in double quotes escapes the next one, anything else is kept |
| CommandSplit.NextArg | src/env/path.cc:75-111 | one pass of the outer loop moves forward and keeps the words read so far plus the rest equal to the whole split |
| CommandSplit.SkipSpace | src/env/path.cc:76-78 | white space in front changes nothing |
| CommandSplit.ArgsTaken | src/env/path.cc:75-111 | the words from a position are those taken there followed by the rest |
| CommandSplit.ArgsStep | src/env/path.cc:81-110 | one pass takes the argument read (kept when non-empty or quoted) and steps past its closing quote |
| CommandSplit.TakenAt | src/env/path.cc:81-110 | what the loop reads at a position is what the split function takes there |
| CommandSplit.SplitText | src/env/path.cc:69-111 | the outer loop over one text argument computes its words |
| CommandSplit.CommandLineSplit | src/env/path.cc:61-114 | `command_line_split` keeps the tool and every non-text argument in order, and splits each text argument in its place (corrected: built on the corrected split, see the src/env/path.cc:84-110 and 88-103 rows of Findings) |
| IncludeLocator.TextsOf | src/env/include_locator.cc:43-46 | the text arguments kept are never more than the arguments |
| IncludeLocator.TextsOfAppend | src/env/include_locator.cc:43-46 | the text arguments of a concatenation are those of each part in order |
| IncludeLocator.TextsOfTexts | src/env/include_locator.cc:43-46 | the text arguments of split words are those words |
| IncludeLocator.ResolvedWords | src/env/include_locator.cc:33-46 | the program's arguments are the words of the command's text arguments, in order; other arguments are dropped |
| IncludeLocator.Resolve | src/env/include_locator.cc:30-49 | `resolve` returns the resolved tool followed by the text arguments of the split command |
| IncludeLocator.Lines | src/env/include_locator.cc:102-106 | the lines `getline` reads hold no '\n' |
| IncludeLocator.StripAll | src/env/include_locator.cc:109 | each collected line is the original line stripped of surrounding white space |
| IncludeLocator.CollectInList | src/env/include_locator.cc:105-117 | inside the list, the directories are the stripped lines before the first stop marker, and there are none without a stop marker |
| IncludeLocator.CollectBeforeList | src/env/include_locator.cc:105-117 | before the list: with no stop marker nothing is kept; a stop marker before any start marker gives no directories; otherwise the stripped lines strictly between the first start marker and the first stop marker |
| IncludeLocator.CollectNoStop | src/env/include_locator.cc:105-117 | before the list, lines without any stop marker give no directories |
| IncludeLocator.CollectStopFirst | src/env/include_locator.cc:105-117 | a stop marker reached before any start marker ends the scan with an empty list |
| IncludeLocator.CollectStartFirst | src/env/include_locator.cc:105-117 | after the first start marker, the directories are the stripped lines up to the first stop marker |
| IncludeLocator.FoundIncludeMeaning | src/env/include_locator.cc:21-71 | a name shorter than three characters finds nothing; a quoted name found next to the source wins; otherwise the result is empty iff no system directory holds the header, else the header in one that does |
| IncludeLocator.ParsedDirsMeaning | src/env/include_locator.cc:73-118 | a failing listing command gives no directories, as does a listing without the stop marker; otherwise the stripped lines between the first start and stop markers |
| IncludeLocator.Locator.constructor | src/env/include_locator.hh:8-16 | a locator keeps its settings, resolves its filter command and starts unparsed with no directories |
| IncludeLocator.Locator.FromEnv | src/env/include_locator.cc:7-19 | an unset variable changes nothing; a set one replaces the directories with its ':'-separated parts |
| IncludeLocator.Locator.ParseIfNeeded | src/env/include_locator.cc:73-118 | the first call learns the directories from the listing; later calls change nothing |
| IncludeLocator.Locator.FindSysInclude | src/env/include_locator.cc:51-62 | learn the directories if needed, then return the header in the first directory that holds it, or nothing |
| IncludeLocator.Locator.FindInclude | src/env/include_locator.cc:21-28 | the header the include names, learning the system directories only when they are searched |
| IncludeLocator.CollectLoop | src/env/include_locator.cc:102-117 | the getline loop computes the collected directories, or none when the stop marker never comes |
| IncludeLocator.CollectStep | src/env/include_locator.cc:106-115 | one line: the stop marker ends the loop, a line in the list is kept stripped, a start marker opens the list |
| CommandList.Simplified | src/env/command_list.cc:7-14 | a simplified command is the resolved tool followed by the command's arguments unchanged |
| CommandList.SimplifiedAllMeaning | src/env/command_list.cc:15-23 | simplifying an edge keeps one simplified command per command, in order |
| CommandList.Simplify | src/env/command_list.cc:15-23 | the transform computes the simplified commands |
| CommandList.LookupSnoc | src/env/command_list.cc:29 | looking a rule up in an ordered map with one more entry finds the earlier entry first |
| CommandList.SlotMeaning | src/env/command_list.cc:26-36 | each rule's slot holds the simplified commands of its edge, or nothing when the map has none |
| CommandList.CommandList.constructor | src/env/command_list.cc:26-36 | the table has one slot per rule, each filled from the edges |
| CommandList.CommandList.Get | src/env/command_list.cc:38-45 | an index past the table gives the empty list; otherwise the slot |
| CommandList.BuiltGet | src/env/command_list.cc:26-45 | `get` on a built table returns the simplified commands of the rule's edge, and nothing for a rule without one or out of range |
| Compiler.CategoryIgnoresDirectory | src/base/compiler.cc:14-20 | the category depends only on the file name: `cl.exe` and `cl` are Visual C++, anything else is GCC-like |
| Compiler.CleanLine | src/base/compiler.cc:108 | a cleaned line is the text before the first '#', stripped: no '#' and no surrounding white space |
| Compiler.CleanAll | src/base/compiler.cc:107-109 | every line is cleaned in place |
| Compiler.NonEmpty | src/base/compiler.cc:110-113 | only non-empty lines of the input remain |
| Compiler.CleanupMeaning | src/base/compiler.cc:104-127 | `cleanup` of no text is empty; otherwise it is the non-empty cleaned lines joined by '\n', holding no '#' and no surrounding white space |
| Compiler.CleanLinesWellFormed | src/base/compiler.cc:106-113 | every kept line is non-empty, stripped, and holds neither '#' nor '\n' |
| Compiler.TerminatedLinesStrip | src/base/compiler.cc:121-126 | stripping the '\n'-terminated lines gives their join, which splits back into the lines |
| Compiler.Cleanup | src/base/compiler.cc:104-127 | the method computes `cleanup` |
| Compiler.CleanEach | src/base/compiler.cc:107-109 | the loop cleans every line |
| Compiler.TerminateEach | src/base/compiler.cc:121-124 | the loop appends each line and a '\n' |
| Compiler.RemoveEmpty | src/base/compiler.cc:110-113 | `remove_if` and `erase` keep the non-empty lines in order |
| Compiler.FirstPieceIsPrefix | src/base/compiler.cc:108 | the first piece of a split is a prefix of the text |
| Compiler.StripChars | src/base/compiler.cc:108 | stripping adds no character |
| Compiler.TerminatedIsJoin | src/base/compiler.cc:121-124 | the terminated lines are their '\n'-join plus a final '\n' |
| Compiler.JoinEnds | src/base/compiler.cc:126 | the join of non-empty lines starts and ends with a line's characters, not with a separator |
| Compiler.JoinChars | src/base/compiler.cc:121-124 | every character of a join is the separator or a character of a piece |
| Compiler.CompilerType | src/base/compiler.cc:129-149 | without the probe file the answer is empty; otherwise the first word of the cleaned output is the id and the rest, left-stripped, the version |
| Compiler.FirstWord | src/base/compiler.cc:138-148 | the scan splits a text into its first word and the left-stripped rest |
| Compiler.FirstWordUnique | src/base/compiler.cc:138-148 | a text has only one first-word split |
| Compiler.FirstWordOfJoin | src/base/compiler.cc:138-148 | an id, white space and a version split back into that id and version |
| Compiler.LStripGap | src/base/compiler.cc:146 | left-stripping removes exactly the leading white space |
| Compiler.SetupsOf | src/base/compiler.cc:171-175 | one setup per project, in order, named after it with the `.dir` object directory and its subdirectory |
| Compiler.SetupIds | src/base/compiler.cc:166-176 | the id map sends each project's name to the index of its setup |
| Compiler.IdsOfSnoc | src/base/compiler.cc:172-175 | registering one more project keeps the id map right |
| Compiler.RegisterProjects | src/base/compiler.cc:163-180 | `register_projects` sets the generator's setups, leaves its rules and targets alone, and returns the id map |
| Compiler.SetupIdFindsSetup | src/base/compiler.hh:24-29 | a registered name's id is the index of its setup; an unregistered name gets the largest size value |
| Compiler.LinksOf | src/base/compiler.cc:234-237 | the links queued for a project all come from the build's link lists |
| Compiler.LinkUniverse | src/base/compiler.cc:219-238 | the projects the walk can reach form a closed set holding the starting links |
| Compiler.ShrinkUniverse | src/base/compiler.cc:227 | marking a new project seen shrinks what is left to see |
| Compiler.WalkFixedCloses | src/base/compiler.cc:219-238 | the corrected walk lists each project once, never a seen one, every starting link, and every link of a listed project |
| Compiler.WalkFixedSound | src/base/compiler.cc:219-238 | every project the corrected walk lists is a starting link or the link of an earlier listed project |
| Compiler.WalkAsWrittenIsPrefix | src/base/compiler.cc:223-238 | the walk as written, which stops at the first revisit, is a prefix of the corrected walk |
| Compiler.DiamondLinks | src/base/compiler.cc:234-237 | the links of the example build |
| Compiler.DiamondLosesLink | src/base/compiler.cc:223-238 | with `a` linking `b` and `c`, `b` linking `c` and `c` linking `e`, the walk as written meets `c` again, stops and never links `e`; the corrected walk does |
| Compiler.ObjectInputs | src/base/compiler.cc:213-217 | one object input per source |
| Compiler.LinkedInputs | src/base/compiler.cc:230-232 | one linked input per linked project |
| Compiler.ProjectTargetMeaning | src/base/compiler.cc:182-242 | the target is built by its kind's rule from one "<source>.o" per source in order; a static library links nothing else; any other project links every project its links reach, each once, never itself (corrected: the walk skips a project already seen instead of leaving the loop, see the src/base/compiler.cc:223-238 row of Findings) |
| Compiler.CreateProjectTarget | src/base/compiler.cc:182-242 | the method computes the project target (corrected link walk, see the src/base/compiler.cc:223-238 row of Findings) |
| Compiler.LinkRefs | src/base/compiler.cc:230-232 | the loop computes the linked inputs |
| Compiler.LinkWalk | src/base/compiler.cc:219-238 | the deque-and-seen-set loop computes the corrected walk |
| Compiler.WalkNext | src/base/compiler.cc:223-238 | one turn of the loop keeps what was linked plus what is left to walk, and makes progress |
| Compiler.RulesUpToEntries | src/base/compiler.cc:260-263 | the rule list holds only selected built-in rules, in the enumeration's order |
| Compiler.RulesUpToComplete | src/base/compiler.cc:260-263 | no selected rule is missed |
| Compiler.RulesUpToLength | src/base/compiler.cc:251-258 | the list is no longer than the rules examined |
| Compiler.NeededRulesMeaning | src/base/compiler.cc:244-265 | a rule is in the list iff its bit is set; the list is at most the number of rules and follows the enumeration |
| Compiler.AddRules | src/base/compiler.cc:244-265 | `add_rules` sets the generator's rules to the needed ones and leaves the rest alone |
| Gcc.AsCmi | src/compilers/gcc.cc:12-28 | a GCC module file is `gcm.cache/` + the module name, '-' and the partition when there is one, + `.gcm` |
| Gcc.AsCmiInjective | src/compilers/gcc.cc:12-28 | for module names without '-', distinct modules get distinct GCC module files |
| Gcc.MajorOf | src/compilers/gcc.cc:35-43 | the major version fits in an `unsigned` |
| Gcc.MajorOfMeaning | src/compilers/gcc.cc:35-43 | a version without a space gives 11, the first GCC with modules; otherwise the first word is the major when it is all digits and fits, else 255 |
| Gcc.MajorOfExample | src/compilers/gcc.cc:35-43 | "13 2 0" gives 13, "13" gives 11, "x 2 0" gives 255 |
| Gcc.ToolnameMeaning | src/compilers/gcc.cc:50-65 | without a prefix the tool name is the bare tool; with one it is prefix, tool, '-' and the decimal major version, which reads back |
| Gcc.DashEnd | src/compilers/gcc.cc:73-78 | the search for the k-th dash ends just past a dash, within the name |
| Gcc.DashEndCounts | src/compilers/gcc.cc:73-78 | the k-th dash is missing iff the name has fewer than k dashes; when found, exactly k dashes lie before its end |
| Gcc.NoDashCounts | src/compilers/gcc.cc:75 | a stretch without dashes counts none |
| Gcc.DashSplitsCount | src/compilers/gcc.cc:75-77 | a dash splits the count into the counts on each side plus one |
| Gcc.CountAroundDash | src/compilers/gcc.cc:75-77 | the dashes of two texts joined by a dash |
| Gcc.PrefixMeaning | src/compilers/gcc.cc:67-81 | the prefix is empty iff the file name has fewer than three dashes; otherwise it is the directory joined with the name up to its third dash, followed by `gcc-` |
| Gcc.FindPrefix | src/compilers/gcc.cc:67-81 | `find_prefix` computes the prefix |
| Gcc.ThirdDash | src/compilers/gcc.cc:73-78 | the three-round loop finds the end of the third dash or fails |
| Gcc.CommandsMeaning | src/compilers/gcc.cc:96-125 | GCC has commands only for compiling, linking an executable and archiving; each writes its output, compile and link run the compiler on the input, and archiving is three commands with the input in the second |
| Gcc.CmiRefs | src/compilers/gcc.cc:166-169 | one module reference per import, in order |
| Gcc.ObjectTargetMeaning | src/compilers/gcc.cc:154-173 | the object target compiles the source into "<source>.o"; it also writes the module file and carries the module's name as its edge iff the source is an interface; its order-only inputs are the imports' module files; the maps are looked up by the lexically normal key (corrected, see Findings) |
| Gcc.SourceTargets | src/compilers/gcc.cc:136-174 | two targets per source |
| Gcc.SourceTargetsLayout | src/compilers/gcc.cc:136-174 | each source gives its input target followed by its object target |
| Gcc.ProjectBitsMeaning | src/compilers/gcc.cc:133-183 | a project adds the compile bit when it has sources and its link rule's bit |
| Gcc.NeedsRuleStep | src/compilers/gcc.cc:133-183 | the same for the rules the projects need |
| Gcc.BitsUpToMeaning | src/compilers/gcc.cc:132-183 | a rule's bit is set iff some project needs that rule |
| Gcc.GccCompiler.constructor | src/compilers/gcc.cc:33-84 | the compiler keeps its path, its prefix and its major version |
| Gcc.GccCompiler.Mapout | src/compilers/gcc.cc:127-187 | `mapout` sets the setups, the targets of every project in order and the rules the projects need (link inputs from the corrected walk, see the src/base/compiler.cc:223-238 row of Findings) |
| Gcc.MapProjects | src/compilers/gcc.cc:133-183 | the project loop computes the targets and the rule bits |
| Gcc.MapProject | src/compilers/gcc.cc:134-182 | one project appends its targets and bits |
| Gcc.AddLinkBit | src/compilers/gcc.cc:176-182 | the link target adds its rule's bit |
| Gcc.MapSources | src/compilers/gcc.cc:136-174 | the source loop computes the source targets and adds the compile bit when there is a source |
| Gcc.MapoutRules | src/compilers/gcc.cc:127-187 | a rule is generated iff some project needs it |
| Clang.AsCmi | src/compilers/clang.cc:9-27 | a Clang module file is `bmi/` + the module name, '.' and the partition when there is one, + `.pcm` |
| Clang.AsCmiInjective | src/compilers/clang.cc:9-27 | for module names without '.', distinct modules get distinct module files |
| Clang.StemSplits | src/compilers/clang.cc:18-24 | two dot-free module names joined to partitions by '.' split back uniquely |
| Clang.DotInLonger | src/compilers/clang.cc:18-24 | when two such joins are equal, the longer name holds a '.' where the shorter ends |
| Clang.BitAgrees | src/compilers/clang.cc:29-31 | Clang's 32-bit `bit` agrees with the generator's 64-bit one for every rule |
| Clang.CommandsMeaning | src/compilers/clang.cc:52-92 | Clang has commands only for emitting module interfaces, compiling, linking an executable and archiving; each writes its output; the first three run the compiler on the input; archiving runs `rm`, `ar` with the input, then `ranlib` |
| Clang.CmiRefs | src/compilers/clang.cc:131-147 | one module reference per module, in order |
| Clang.UnitTargetsMeaning | src/compilers/clang.cc:113-151 | a source gives its input target, a module-interface target iff it is an interface (from the source, ordered after its required modules' files), and an object target ordered after its imports' module files; the maps are looked up by the lexically normal key (corrected, see Findings) |
| Clang.SourceTargetsAppend | src/compilers/clang.cc:103-152 | the targets of two runs of sources are those of each run in order |
| Clang.SourceTargetsLayout | src/compilers/clang.cc:103-152 | each source's targets sit between those of the sources before and after it |
| Clang.SourceBitsMeaning | src/compilers/clang.cc:103-152 | the source loop sets the compile bit iff there is a source, and the interface bit iff some source is an interface |
| Clang.UnitBitsMeaning | src/compilers/clang.cc:121-138 | one source sets the compile bit, and the interface bit when it is an interface |
| Clang.EmitThenCompile | src/compilers/clang.cc:122-138 | setting both bits adds exactly those two rules |
| Clang.BitsUpToStep | src/compilers/clang.cc:100-161 | one more project adds the compile, interface and link bits it needs |
| Clang.NeedsRuleStep | src/compilers/clang.cc:100-161 | the same for the rules the projects need |
| Clang.BitsUpToMeaning | src/compilers/clang.cc:99-161 | a rule's bit is set iff some project needs that rule |
| Clang.ClangCompiler.constructor | src/compilers/clang.cc:35-36 | the compiler keeps its path and the `ar` and `ranlib` found on the `PATH` |
| Clang.ClangCompiler.Mapout | src/compilers/clang.cc:94-165 | `mapout` sets the setups, the targets of every project in order and the rules the projects need (link inputs from the corrected walk, see the src/base/compiler.cc:223-238 row of Findings) |
| Clang.MapProjects | src/compilers/clang.cc:100-161 | the project loop computes the targets and the rule bits |
| Clang.MapProject | src/compilers/clang.cc:101-160 | one project appends its targets and bits |
| Clang.AddLinkBit | src/compilers/clang.cc:154-160 | the link target adds its rule's bit |
| Clang.MapSources | src/compilers/clang.cc:103-152 | the source loop computes the source targets and bits |
| Clang.MapUnit | src/compilers/clang.cc:104-151 | one source appends its targets and bits |
| Clang.MapoutRules | src/compilers/clang.cc:94-165 | a rule is generated iff some project needs it |
| XmlHandlers.BoolValCases | src/xml/handlers.hh:20-23 | only "false", "no" and "0" are false; anything else, the empty value and "False" included, is true |
| XmlHandlers.LastValue | src/xml/handlers.cc:132-188 | the value an attribute loop keeps for a key is one given for that key, and there is none only when the key is absent |
| XmlHandlers.Spaced | src/xml/handlers.cc:62-89 | `spaced` is the stripped text with one space in front and one behind exactly when asked |
| XmlHandlers.ProcessedTextMeaning | src/xml/handlers.cc:91-101 | the processed text starts with a space iff the raw text starts with white space, ends with one iff it ends with white space, and strips to the stripped raw text |
| XmlHandlers.StripSpaced | src/xml/handlers.cc:62-89 | stripping a spaced text gives back the stripped text |
| XmlHandlers.TrimmedProcessedText | src/xml/handlers.cc:52-101 | trimming the last processed text drops its trailing space, keeping a leading space only when the raw text had white space in front |
| XmlHandlers.ClosingText | src/xml/handlers.cc:49-60 | closing a command appends the trimmed text, or nothing when the text was all white space |
| XmlHandlers.NamesOfMeaning | src/xml/handlers.cc:4-10 | `<var>` adds a named variable for each `name` attribute and nothing else |
| XmlHandlers.LastTool | src/xml/handlers.cc:17-28 | the tool `<tool>` keeps comes from a `which` or `PATH` attribute; there is none only when neither is given |
| XmlHandlers.IncludeDirsAttrsMeaning | src/xml/handlers.cc:132-145 | `output` selects standard output for "stdout" and standard error otherwise; `start` and `stop` set the markers; the filter command is untouched |
| XmlHandlers.BmiAttrsMeaning | src/xml/handlers.cc:152-168 | `dirname` and `ext` are copied; `type` is side-effect for "side-effect" and direct otherwise; `partitions` is read as a boolean |
| XmlHandlers.IdentNamesMeaning | src/xml/handlers.cc:170-180 | `compat`, `exe` and `name` are copied when given |
| XmlHandlers.IdentMacrosMeaning | src/xml/handlers.cc:181-186 | `guard` and `version` are copied and `find-tripple` is read as a boolean |
| XmlHandlers.CommandHandlerBase.constructor | src/xml/handlers-internal.hh:30-40 | a command handler starts with an empty command and text and no tool |
| XmlHandlers.CommandHandlerBase.ProcessText | src/xml/handlers.cc:91-101 | `processText` appends the processed text as a text argument and clears the text |
| XmlHandlers.CommandHandlerBase.OnChild | src/xml/handlers.cc:30-41 | before a tool only `cxx` and `tool` open children; after it the pending text is appended and only `var` opens one |
| XmlHandlers.CommandHandlerBase.OnCharacter | src/xml/handlers.cc:43-47 | character data is collected only once a tool is set |
| XmlHandlers.CommandHandlerBase.OnStop | src/xml/handlers.cc:49-60 | without a tool nothing changes; with one, the pending text is appended and a trailing space or empty last text is trimmed |
| XmlHandlers.CommandHandlerBase.VarElement | src/xml/handlers.cc:4-10 | `<var>` appends its named variables to the command |
| XmlHandlers.CommandHandlerBase.CxxElement | src/xml/handlers.cc:12-15 | `<cxx>` sets the tool to the compiler itself |
| XmlHandlers.CommandHandlerBase.ToolElement | src/xml/handlers.cc:17-28 | `<tool>` sets the last `which` or `PATH` value as the tool, or changes nothing |
| XmlHandlers.XmlConfig.constructor | src/xml/handlers.hh:8-11 | the configuration starts with the output record and no rules |
| XmlHandlers.XmlConfig.IncludeDirsElement | src/xml/handlers.cc:132-145 | `<include-dirs>` attributes update only the include-directory settings |
| XmlHandlers.XmlConfig.IncludeDirsStopped | src/xml/handlers.cc:147-150 | closing `<include-dirs>` with a tool stores the finished command as the filter; without one nothing changes |
| XmlHandlers.XmlConfig.BmiCacheElement | src/xml/handlers.cc:152-168 | `<bmi-cache>` attributes update only the module-file settings |
| XmlHandlers.XmlConfig.IdentElement | src/xml/handlers.cc:170-188 | `<ident>` attributes update only the identification settings |
| XmlHandlers.RuleHandler.constructor | src/xml/handlers-internal.hh:49-57 | a rule starts with no name and no commands |
| XmlHandlers.RuleHandler.OnElement | src/xml/handlers.cc:108-113 | `<rule>` takes its name from the last `id` attribute |
| XmlHandlers.RuleHandler.CommandStopped | src/xml/handlers.cc:103-106 | a finished command with a tool joins the rule's commands; one without a tool is dropped |
| XmlHandlers.RuleHandler.OnStop | src/xml/handlers.cc:122-124 | closing a rule stores its commands under its name, replacing an earlier rule of that name and leaving the others |
| XmlHandlers.DocumentChild | src/xml/handlers.cc:210-214 | the document accepts only `<compiler>` |
| XmlHandlers.CompilerChild | src/xml/handlers.cc:190-199 | `<compiler>` accepts exactly `ident`, `bmi-cache`, `include-dirs` and `rules`, each as its own element: `ident` iff the ident element, and so on for the other three |
| XmlHandlers.RulesChild | src/xml/handlers.cc:126-130 | `<rules>` accepts only `<rule>` |
| XmlHandlers.RuleChild | src/xml/handlers.cc:115-120 | `<rule>` accepts only `<command>` |
| XmlParser.VarFromName | src/xml/parser.cc:20-29 | a variable name is recognised iff it is the spelling of a variable, and then gives that variable |
| XmlParser.VarNamesRoundTrip | src/xml/parser.cc:20-29 | every variable's spelling is recognised as that variable |
| XmlParser.ConvertArgs | src/xml/parser.cc:15-30 | one converted argument per argument, in order |
| XmlParser.ConvertArgsMeaning | src/xml/parser.cc:15-30 | text and variable arguments are kept; a named variable becomes the variable it spells, and stays named when it spells none |
| XmlParser.VarsFrom | src/xml/parser.cc:11-32 | `vars_from` keeps the tool and converts every argument |
| XmlParser.ConvertCommands | src/xml/parser.cc:34-40 | one converted command per command, in order |
| XmlParser.VarsFromAll | src/xml/parser.cc:34-40 | the loop converts every command |
| XmlParser.RuleFrom | src/xml/parser.cc:42-48 | a rule name is recognised iff it is the spelling of a rule, and then gives that rule |
| XmlParser.RuleFromMeaning | src/xml/parser.cc:42-48 | `rule_from` finds a rule by its own spelling and by no other; "ARCHIVE", which the rule list lacks, is unknown |
| XmlParser.RuleOrderIsStrict | src/xml/parser.cc:50-53 | the rule map's key order is a strict total order |
| XmlParser.PutRule | src/xml/parser.cc:66-90 | storing a rule keeps the map ordered, gives the rule its commands and leaves the other rules alone |
| XmlParser.ConvertedFails | src/xml/parser.cc:57-64 | the conversion fails iff some rule name is unknown |
| XmlParser.ConvertedEntries | src/xml/parser.cc:57-67 | a successful conversion is ordered and holds each named rule's converted commands, and no other rule |
| XmlParser.FilledMeaning | src/xml/parser.cc:69-92 | filling keeps every present rule and adds an empty command list for each missing one |
| XmlParser.RulesOfMeaning | src/xml/parser.cc:50-95 | `rules_from` fails iff some rule name is unknown; otherwise every rule is present, with its converted commands when named and empty otherwise |
| XmlParser.RuleIndex | src/xml/parser.cc:57-67 | the entry spelling a given rule |
| XmlParser.RulesFrom | src/xml/parser.cc:50-95 | the method computes `rules_from` |
| XmlParser.ConvertedStaysNone | src/xml/parser.cc:60-64 | once an unknown name is met the conversion fails for good |
| XmlParser.Parser.constructor | src/xml/parser.cc:97-104 | a parser starts with only the document handler on its stack, nothing ignored and no rules |
| XmlParser.Parser.OnStartElement | src/xml/parser.cc:134-153 | inside an ignored element only the depth grows; otherwise the element is pushed exactly when `ChildKind` accepts it under the top handler, as a handler of that kind, with the configuration filled by `ident`, `bmi-cache` or `include-dirs` from the attributes and a new rule named by its last `id`; an element not accepted starts being ignored; the rule map is untouched |
| XmlParser.Parser.Accept | src/xml/parser.cc:135-145 | the same outside an ignored element |
| XmlParser.Parser.OnEndElement | src/xml/parser.cc:155-165 | inside an ignored element the depth shrinks; otherwise the top handler is popped and stops: a rule is filed under its name in the rule map, an `include-dirs` with a tool sets the include listing command, a command with a tool is trimmed and appended to its rule; nothing else changes the configuration |
| XmlParser.Parser.OnCharacterData | src/xml/parser.cc:167-173 | outside an ignored element, character data is appended to the pending text of the top command when its tool is known; otherwise nothing the parser can reach changes |
| XmlParser.Parser.Dispatch | src/xml/parser.cc:134-173 | every start element adds one level (a handler or an ignored depth), every end element removes one, character data none |
| XmlParser.ChildKind | src/xml/handlers.cc:30-214 | the document grammar: `compiler` only under the document; `ident`, `bmi-cache`, `include-dirs`, `rules` only under `compiler`; `rule` only under `rules`; `command` only under `rule`; `var` only in a command whose tool is known, `cxx` and `tool` only in one whose tool is not; nothing under any other handler |
| XmlParser.Child | src/xml/handlers.cc:30-214 | `onChild` of any handler returns a handler of exactly the kind `ChildKind` names; a new command or rule handler is fresh and empty, a command handler writes to the top rule, `var`/`cxx`/`tool` write to the top command; a command handler whose tool is known pushes its pending text first, any other top is unchanged |
| XmlParser.StructureChild | src/xml/handlers.cc:115-214 | the same for the handlers that do not read a command |
| XmlParser.CommandChildOf | src/xml/handlers.cc:30-41 | `command_handler_base::onChild`: the child kind `ChildKind` gives a command; the pending text is pushed when the tool is known, and nothing changes otherwise |
| XmlParser.Begin | src/xml/handlers.cc:4-188 | `ident`, `bmi-cache`, `include-dirs` fill exactly their part of the configuration from the attributes, no other handler changes it; a rule takes the last `id`; `var` appends one named variable per `name` attribute; `cxx` makes the compiler the tool; `tool` takes the last `which`/`PATH` |
| XmlParser.Stop | src/xml/handlers.cc:49-150 | a command with a tool is trimmed; `include-dirs` with a tool becomes the include listing command; a rule replaces any earlier rule of its name in the rule map; a command with a tool joins its rule; the configuration is otherwise unchanged |
| XmlParser.Character | src/xml/handlers.cc:43-47 | a command handler keeps the data only once its tool is known; other handlers ignore it |
| XmlParser.Load | src/xml/parser.cc:106-132 | a description is accepted only for a GCC-compatible compiler with known rules, and then its rule map is ordered and holds every rule |
| XmlFactory.GetVersionMajor | src/xml/factory.cc:11-20 | the major version fits in an `unsigned` |
| XmlFactory.VersionMajorMeaning | src/xml/factory.cc:11-20 | the major version is the first word when it is all digits and fits in an `unsigned`, and 255 otherwise |
| XmlFactory.GetCompilerId | src/xml/factory.cc:61-67 | the compiler id is the description's name, guard and version |
| XmlCache.PutConfig | src/xml/xml.cc:27-35 | inserting a configuration keeps the map ordered, stores it under its name and leaves the others |
| XmlCache.AddedMeaning | src/xml/xml.cc:24-41 | a new name is stored; an existing one is replaced only by a strictly newer file; other names are untouched |
| XmlCache.OnePerName | src/xml/xml.cc:22 | the cache holds each name once |
| XmlCache.AddedAllOrdered | src/xml/xml.cc:61-74 | the cache stays ordered by name |
| XmlCache.NewestWins | src/xml/xml.cc:45-79 | a name is in the cache iff some description has it, and the one stored is a description of that name no older than any other |
| XmlCache.CompilerCache.constructor | src/xml/xml.cc:21-22 | the cache starts empty |
| XmlCache.CompilerCache.AddConfig | src/xml/xml.cc:24-41 | `add_config` updates the cache as adding the description says |
| XmlCache.Collect | src/xml/xml.cc:45-75 | collecting the descriptions in order gives the cache of all of them |
| Ninja.VarTextMeaning | src/generators/ninja.cc:10-32 | every variable is written as a distinct `$` name; the input and output are `$in` and `$out` |
| Ninja.RuleLabelMeaning | src/generators/ninja.cc:34-64 | a rule has no ninja name iff it is unnamed, an empty custom name, the directory rule or the include rule; a custom rule keeps its name; archives are `ar` and compiles `cc` |
| Ninja.BuiltinLabelsDistinct | src/generators/ninja.cc:44-59 | two built-in rules that are written get different names |
| Ninja.JoinedLength | src/generators/ninja.cc:111-119 | the joined commands are as long as the parts plus one separator between each two |
| Ninja.RuleBlockMeaning | src/generators/ninja.cc:104-134 | a rule block is written iff the rule has a name; a named built-in rule always has a description, its default message when its own is empty |
| Ninja.WriteTemplate | src/generators/ninja.cc:93-118 | each chunk is written as text or as its variable's name |
| Ninja.WriteCommands | src/generators/ninja.cc:110-120 | the commands are written joined by ` && ` |
| Ninja.WriteRule | src/generators/ninja.cc:104-134 | the loop writes the rule block |
| Ninja.IgnoredMeaning | src/generators/ninja.cc:136-147 | an artifact is ignored iff some directory target outputs it |
| Ninja.CollectIgnored | src/generators/ninja.cc:136-147 | the loop collects the ignored artifacts |
| Ninja.SurvivingMeaning | src/generators/ninja.cc:166-187 | the inputs written are exactly the inputs that are not ignored |
| Ninja.MkdirOutputsNeverInputs | src/generators/ninja.cc:136-187 | no output of a directory target is ever written as an input of a build line |
| Ninja.FileNameFromMeaning | src/generators/ninja.cc:192-211 | inputs are under the way back to the sources and the project's directory, outputs under its directory and object directory, linked files under its directory, and other files and absolute paths are kept as they are |
| Ninja.SurvivingKnown | src/generators/ninja.cc:166-187 | filtering keeps the inputs resolvable |
| Ninja.MarkerNeedsInput | src/generators/ninja.cc:170-187 | the ` \|` and ` \|\|` markers are written iff some input of their group survives, and then they come first |
| Ninja.BuildLineMeaning | src/generators/ninja.cc:149-189 | a build line is written iff the target's rule has a name, and it starts with `build ` |
| Ninja.WriteInputs | src/generators/ninja.cc:166-169 | the loop writes the surviving explicit inputs |
| Ninja.WriteMarked | src/generators/ninja.cc:170-187 | the loop writes a marked group of surviving inputs |
| Ninja.WriteOutputs | src/generators/ninja.cc:155-162 | the loop writes every output |
| Ninja.WriteBuild | src/generators/ninja.cc:149-189 | the loop body writes the build line |
| Ninja.WriteRules | src/generators/ninja.cc:104-134 | the loop writes every rule block in order |
| Ninja.WriteBuilds | src/generators/ninja.cc:149-189 | the loop writes every build line in order |
| Ninja.Generate | src/generators/ninja.cc:89-190 | `build.ninja` is the flags header, the rule blocks and the build lines, with the directory outputs ignored |
| Dot.ShapeMeaning | src/generators/dot.cc:11-39 | each linking rule and module interface has its own shape, unnamed rules are houses, and the rest keep the default |
| Dot.NodeIdsDistinct | src/generators/dot.cc:95-97 | different node numbers give different node names |
| Dot.NodesMeaning | src/generators/dot.cc:83-104 | an artifact has a node iff it is the main output of a non-directory target, and its number is that of the last such target |
| Dot.NodeCountGrows | src/generators/dot.cc:95 | the node counter never goes down |
| Dot.NodeNumbersInOrder | src/generators/dot.cc:95-103 | later targets get strictly larger node numbers |
| Dot.NodeStep | src/generators/dot.cc:84-103 | a directory target adds its outputs to the ignored set; any other gets the next number and writes its node line |
| Dot.WriteNodes | src/generators/dot.cc:79-104 | the first loop writes the node lines and builds the ignored set and the node map |
| Dot.SolidDestsMeaning | src/generators/dot.cc:111-132 | the solid edges go to exactly the nodes of the inputs that are not ignored and have a node |
| Dot.FirstProducerMeaning | src/generators/dot.cc:150-180 | the search finds the earliest target producing the input, and nothing when none does |
| Dot.ResolveMeaning | src/generators/dot.cc:146-185 | an order-only input goes to its own node, else to the node of its first producer, else nowhere |
| Dot.EdgeLinesMeaning | src/generators/dot.cc:106-198 | a solid edge line is written iff some input survives and has a node; a dashed line ends with the dashed style |
| Dot.ExtendSolid | src/generators/dot.cc:111-132 | the loop extends the solid edge line by the surviving inputs |
| Dot.WriteSolid | src/generators/dot.cc:111-140 | the solid edge line of a target |
| Dot.Contains | src/generators/dot.cc:153-175 | found iff the artifact is in the list |
| Dot.FindProducer | src/generators/dot.cc:150-180 | the loop finds the first producer |
| Dot.ResolveInput | src/generators/dot.cc:146-185 | the loop resolves an order-only input |
| Dot.WriteDashed | src/generators/dot.cc:142-198 | the loop writes the dashed edge line |
| Dot.WriteEdges | src/generators/dot.cc:106-198 | the edges of one target |
| Dot.WriteAllEdges | src/generators/dot.cc:106-199 | the edges of every target, in order |
| Dot.Generate | src/generators/dot.cc:70-239 | `dependencies.dot` is the preamble, the node lines, the edges and the closing brace |
| Msbuild.NameOf | src/generators/msbuild.cc:48-60 | the configuration type is "Application" exactly for executables, "StaticLibrary" exactly for static libraries, "DynamicLibrary" exactly for shared libraries, and "Utility" exactly for module libraries, the only kind left |
| Msbuild.NameOfDistinct | src/generators/msbuild.cc:48-60 | different project kinds get different names |
| Msbuild.KindOfRule | src/generators/msbuild.cc:164-173 | exactly the rules `VS-EXE`, `VS-LIB` and `VS-DLL` make projects: executables, static and shared libraries |
| Msbuild.DigitValue | src/generators/msbuild.cc:113 | reading a digit of the alphabet inverts writing it |
| Msbuild.HexAppend | src/generators/msbuild.cc:119-123 | hex text of a concatenation is the concatenation of the hex texts |
| Msbuild.HexDigits | src/generators/msbuild.cc:113-123 | hex text is upper-case hexadecimal digits |
| Msbuild.DigitRoundTrip | src/generators/msbuild.cc:121-122 | a nibble written and read back is itself |
| Msbuild.NibblesJoin | src/generators/msbuild.cc:121-122 | the high and low nibbles rebuild the byte |
| Msbuild.HexRoundTrip | src/generators/msbuild.cc:113-123 | hex text reads back as the bytes it was written from |
| Msbuild.OffsetSteps | src/generators/msbuild.cc:112-118 | each group starts where the previous ended, and only the first starts at zero |
| Msbuild.GuidLayout | src/generators/msbuild.cc:110-126 | the GUID text is the bytes in groups of 4, 2, 2, 2 and 6, joined by dashes |
| Msbuild.GuidShape | src/generators/msbuild.cc:110-126 | the GUID text is 36 characters, dashes at 8, 13, 18 and 23 and hex digits elsewhere |
| Msbuild.GuidRoundTrip | src/generators/msbuild.cc:110-126 | a GUID text reads back as its 16 bytes |
| Msbuild.GuidDigits | src/generators/msbuild.cc:110-126 | without its dashes the GUID text is the hex text of its bytes |
| Msbuild.FixBits | src/generators/msbuild.cc:104-108 | byte 6 gets version 3 in its high nibble and byte 8 the variant bits 10, keeping their other bits, and every other byte is kept |
| Msbuild.VersionVisible | src/generators/msbuild.cc:104-126 | the written GUID shows version 3 and a variant digit of 8, 9, A or B |
| Msbuild.Uuid3 | src/generators/msbuild.cc:76-127 | `uuid3` writes the GUID of the fixed digest |
| Msbuild.WriteGroups | src/generators/msbuild.cc:110-126 | the group loop writes the GUID text of the 16 bytes |
| Msbuild.Payload | src/generators/msbuild.cc:69 | the name is hashed after the binary directory and a `\|` |
| Msbuild.Guids.constructor | src/generators/msbuild.cc:63-64 | a GUID store starts empty with its binary directory |
| Msbuild.Guids.GetGuid | src/generators/msbuild.cc:66-73 | a name's GUID is computed from the binary directory and the name and stored once; a stored one is returned unchanged and no other name's changes |
| Msbuild.PutGuid | src/generators/msbuild.cc:70 | storing keeps the map ordered and leaves the other names |
| Msbuild.InterfacesMeaning | src/generators/msbuild.cc:149-155 | an artifact is a module interface iff an unnamed target with an edge has it as its main output, and it maps to the last such edge |
| Msbuild.CollectInterfaces | src/generators/msbuild.cc:149-155 | the loop builds the interface map |
| Msbuild.SourcesOfMeaning | src/generators/msbuild.cc:185-194 | the project's sources are exactly its explicit file inputs, each with its exported module name when it is an interface |
| Msbuild.CollectSources | src/generators/msbuild.cc:185-194 | the loop collects the sources |
| Msbuild.RefGuidsMeaning | src/generators/msbuild.cc:196-199 | the i-th reference is the GUID of the i-th implicit input |
| Msbuild.CollectRefs | src/generators/msbuild.cc:196-199 | the loop collects the references through the GUID store |
| Msbuild.PutProject | src/generators/msbuild.cc:178 | storing a project keeps the map ordered and leaves the others |
| Msbuild.AbsorbedMeaning | src/generators/msbuild.cc:160-200 | a target that makes a project stores it under its GUID with its main output and kind; any other target leaves the projects alone |
| Msbuild.ProjectsOfMeaning | src/generators/msbuild.cc:160-200 | the projects are ordered by GUID, and a GUID has one iff some target makes a project with it |
| Msbuild.LastMakerIsLast | src/generators/msbuild.cc:178-181 | the last maker of a GUID is followed by no other |
| Msbuild.ProjectsOfLast | src/generators/msbuild.cc:178-181 | a project is the one made by the last target with its GUID |
| Msbuild.AddProject | src/generators/msbuild.cc:160-200 | the loop body adds a target's project |
| Msbuild.CollectProjects | src/generators/msbuild.cc:160-200 | the loop builds the project map |
| Msbuild.Generate | src/generators/msbuild.cc:147-200 | the projects written are those the targets make, with the interfaces collected first |
| Msbuild.RepeatUp | src/generators/msbuild.cc:205-215 | `n` repetitions of `../` hold `n` slashes |
| Msbuild.AdditionalBack | src/generators/msbuild.cc:205-215 | one `../` per slash of the project name |
| Msbuild.SourceItemMeaning | src/generators/msbuild.cc:360-374 | a source item names the way back and the path, and is compiled as a module iff it exports one |
| Msbuild.WriteSources | src/generators/msbuild.cc:360-374 | the loop writes every source item |
| Msbuild.KnownRefsMeaning | src/generators/msbuild.cc:380-382 | the references kept are exactly those naming a project |
| Msbuild.ReferencesSkipUnknown | src/generators/msbuild.cc:380-395 | references to unknown GUIDs write nothing |
| Msbuild.WriteReferences | src/generators/msbuild.cc:380-395 | the loop writes the reference items |

## Left out

- Process and file-system calls are parameters of the model. These are `preproc_file`, the `TinyProcess` run in `include_locator::parse_if_needed`, `fs::exists` in `paths::which`, `fullpath`, and the symlink walk of `paths::parser::find` (src/env/path.cc:175-210).
- The compiler output that `parse_if_needed` reads is a list of lines passed in. The environment is a map from names to values.
- `write_ident_cpp` is a boolean parameter. The identification program it writes and runs is not modelled.
- Expat is replaced by the list of events it would report. Expat only reports well-nested elements, so `XmlParser.Load` requires that of its events. The failures of `fopen` and of Expat's parse in `load` are not modelled.
- XmlParser.Load: states that an accepted description is GCC-compatible and holds every rule in order. What each event does to the configuration is stated per event (`XmlParser.Parser.OnStartElement`, `OnEndElement`, `OnCharacterData`); the configuration after a whole document is not stated as a function of the events.
- `factory::create` (src/xml/factory.cc:27-59) only logs and dispatches, so it is not modelled. `load_xml_compilers`' directory iteration (src/xml/xml.cc:45-80) is replaced by a list of descriptions with their modification times.
- The MD5 digest of `uuid3` (OpenSSL) is a function parameter. The model fixes the version and variant bits and writes the groups of whatever 16 bytes that function returns.
- The fixed XML and `.sln` text of the MSBuild writer is not modelled. Neither are `create_directories`, `exit(1)` on its failure, the Windows SDK version query (src/win32/vssetup.cc), or `make_preferred` on reference paths. The model covers the project map, the source items and the reference items.
- Output files (`std::ofstream`) are modelled as the text returned. The `fmt` formatting is written out as concatenation.
- Ninja's rule writer calls `varname` on a named variable that was not resolved (src/generators/ninja.cc:93-98), but `varname` exists only for `var` (src/generators/ninja.cc:10), so the source defines no behaviour there. The model chooses to write nothing for such a chunk.
- Dot's `printable` is the artifact's path.
- `rule_type` values are an enumeration, and the rule bitset is a `bv64` with one bit per rule at the rule's position. `std::variant` alternatives are datatype constructors.
- The XML handlers' value stack is a datatype stack inside the parser. The aliasing between handlers and `cfg.out` is not modelled: each handler updates the configuration it is given.
- The lexical normalisation of include directories (`lexically_normal`), Windows path separators and the Windows `PATH` separator are not modelled. Paths use `/` and `:`.
- `lexically_normal` is modelled for generic paths with '/' separators (`Paths.LexicallyNormal`): root names and Windows separators are not modelled.
- Build.Analyze: takes the normaliser of source keys as a field of its `Scanner` parameter, next to the scanned units, so the build graph is stated for any normaliser; the lemmas that rely on it being `lexically_normal` (Build.KeyedLookupFinds, Build.RawLookupMisses) require NormalisesLexically.
- Build.ScanSource: the preprocessor's input, `(source_dir / subdir / source).lexically_normal()` (src/types.cc:149-151), is not a separate path: the scanner is given the normal key below the source directory.
- The large PEG grammar of extras/hilite-cxx/cxx.cc (`preprocessing_file` and related rules) is not part of this model. Only its hand-written parsers are modelled.
- The older copies src/compiler.cc, src/compiler.hh and src/generator.hh are not part of this model. Their current versions under src/base/ and src/env/ are modelled.
- CellRepeat.ZeroOrMore: requires a subject that consumes whenever it succeeds. The source loops forever on a subject that succeeds without consuming.
- CellRepeat.OneOrMore: requires a consuming subject, for the same reason.
- CellRepeat.AtLeastN: requires a consuming subject, for the same reason.
- Cell.LitChar: its own contract states only that the position stays within the text. Its meaning with nothing to skip is `Cell.CharParsersPlain`.
- Cell.OneOf: its own contract states only the bounds. Its meaning is `Cell.CharParsersPlain`.
- Cell.AnyChar: its own contract states only the bounds. Its meaning is `Cell.CharParsersPlain`.
- Cell.IsA: its own contract states only the bounds. Its meaning is `Cell.CharParsersPlain`.
- Cell.StringTok: its own contract states only the bounds. Its meaning is `Cell.StringTokPlain`.
- CxxParsers.EncodingPrefix: states only that the prefix parser stays within the text and restores the position on failure. It does not state which prefixes it accepts.
- HiliteResult.ParseWithRestart: requires that every restart of the grammar finishes (RestartsFinish). The source loop (libs/libhilite/include/hilite/hilite_impl.hh:84-88) spins forever on a grammar that stops at a line end without consuming.
- Tokens.Hash: folds each character as one byte (`c % 256`), where `ce_1a_hash` folds the UTF-8 bytes of the text. The two agree on ASCII text only. Lookups compare the keys themselves, so `Tokens.TokenTree.Find` and `Tokens.TokenTree.Has` do not depend on this.
- Thread-local storage of the `cell` action flag is a field of one object. Concurrency is not modelled.

## Findings

| source | as written | input that shows it | evidently intended | confidence | as-written member | corrected member |
|---|---|---|---|---|---|---|
| src/cxx/scanner.cc:23-31 | `find_del_eol` moves a local copy past a backslash that no end of line follows, but searches again from the unchanged `pos` | `"\a"`, or a header name such as `"dir\file.h"` | search again after that backslash | high, not executed | Splice.BackslashWithoutEolHangs | Splice.FindDelEol |
| src/cxx/scanner.cc:41-50 | the walk back to the splice's backslash starts at the splice's end, not one before it | `"\` newline `\` newline `x"` keeps the first splice; a splice that ends the text reads one past the end | delete every backslash and end of line | high, not executed | Splice.AdjacentSplicesKeepFirst | Splice.RemoveDeletedEols |
| libs/libcell/include/cell/ascii.hh:264-278 | `basic_is_a::parse` hands a plain `char` to a class predicate that asserts a value in 0-255; where `char` is signed, a byte of 0x80 or more arrives negative and fails the assertion | the UTF-8 lead byte 0xC3 | bytes 128-255 belong to no class and do not match | medium (depends on the signedness of `char`), not executed | Cell.Utf8ByteFailsAsWritten | Cell.CharParsersPlain |
| extras/hilite-cxx/cxx.cc:365-375 | the inner loop of `parse_raw` skips a line splice, then steps one past it without checking for the end | `R"(` then a backslash and a newline, at the end of the text | stop at the end of the text | high, not executed | CxxParsers.RawStringOverrun | CxxParsers.ToClose |
| src/base/compiler.cc:223-238 | the link walk leaves the whole loop on the first project it has already seen | `a` links `b` and `c`, `b` links `c`, `c` links `e`: `e` is never linked | skip a seen project and go on | high, not executed | Compiler.DiamondLosesLink | Compiler.WalkFixedCloses |
| src/env/path.cc:28-37 | `getPATH` adds only the entries that a separator closes | `PATH=a:b` gives only `a` | every non-empty entry | high, not executed | EnvPath.PathTailDropped | EnvPath.GetPath |
| src/env/path.cc:84-110 | `command_line_split` never consumes the closing quote, which then opens another quoted argument | `"x"` gives `x` and an empty argument | `x` alone | high, not executed | CommandSplit.ClosingQuoteReopens | CommandSplit.QuotedRoundTrip |
| src/env/path.cc:88-103 | the `escaped` flag is never cleared once set | `"\x" y` gives the single argument `x" y` | the escape covers one character, giving `x` and `y` | high, not executed | CommandSplit.EscapeNeverEnds | CommandSplit.EscapeEndsAtQuote |
| src/compilers/gcc.cc:137-141 | the generator looks a source up in the import and export maps by the raw `subdir / filename` (likewise src/compilers/clang.cc:104-108), while `analyze` files it under `(subdir / source).lexically_normal()` (src/types.cc:156-157) | a source listed as `./a.cpp` with an empty subdirectory: filed under `a.cpp`, looked up as `./a.cpp`, so its imports and interface are missed | look the source up by the lexically normal key `analyze` recorded | medium (only sources listed with `.`, `..` or doubled separators differ), not executed | Build.RawLookupMisses | Build.KeyedLookupFinds |
