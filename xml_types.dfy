/** `xml/types`: what a compiler description file configures. */
module XmlTypes {
  import opened Generator
  import opened EnvPath
  import opened CommandSplit

  /** `ident`: how the compiler is recognised and named. */
  datatype Ident = Ident(compat: string, exe: string, name: string, guard: string, version: string, findTripple: bool)

  /** `bmi_decl::kind` */
  datatype BmiKind = Direct | SideEffect

  /** `bmi_decl`: where and how the compiler writes module interfaces. */
  datatype BmiDecl = BmiDecl(dirname: string, ext: string, kind: BmiKind, supportsPartition: bool)

  /** Where the include-directory listing is printed. */
  datatype ListingOutput = UseStderr | UseStdout

  /** `include_dirs`: the command listing the system include directories, and the markers around them. */
  datatype IncludeDirs = IncludeDirs(output: ListingOutput, filterStart: string, filterStop: string, filter: Command)

  /** `compiler_factory_config`; the rule map is kept in rule order. */
  datatype FactoryConfig = FactoryConfig(ident: Ident, bmiDecl: BmiDecl, includeDirs: IncludeDirs,
                                         rules: seq<(RuleType, seq<Command>)>)

  /** `env::command{}`: the compiler itself, with no arguments. */
  const NoCommand: Command := Command(Tool(true, ""), [])

  /** The default member initialisers of `compiler_factory_config`. */
  const DefaultConfig: FactoryConfig :=
    FactoryConfig(Ident("", "", "", "", "", false), BmiDecl("", "", Direct, true),
                  IncludeDirs(UseStderr, "", "", NoCommand), [])
}
