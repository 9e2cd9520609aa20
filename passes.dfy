/** The C shim that runs the backend's default module pipeline
    (`shim.h` / `shim.cc`): the six-valued optimisation-level tag, its
    translation to the backend's levels, the order in which the runner sets
    up the pass infrastructure, and the argument-index query's contract.

    The pass infrastructure itself is opaque: the runner is modelled by the
    trace of calls it makes into it. */
module Passes {
  import opened Wrappers

  /** `SwiftyLLVMPassOptimizationLevel`, in declaration order. */
  datatype PassLevel = O0 | O1 | O2 | O3 | Os | Oz

  /** The backend's `llvm::OptimizationLevel` values, pairwise distinct. */
  datatype LlvmLevel = LlvmO0 | LlvmO1 | LlvmO2 | LlvmO3 | LlvmOs | LlvmOz

  /** The spelling of a tag's level, as in its enumerator name. */
  function LevelName(l: PassLevel): string {
    match l
    case O0 => "O0" case O1 => "O1" case O2 => "O2"
    case O3 => "O3" case Os => "Os" case Oz => "Oz"
  }

  /** The spelling of a backend level, as in `llvm::OptimizationLevel::<name>`. */
  function LlvmLevelName(b: LlvmLevel): string {
    match b
    case LlvmO0 => "O0" case LlvmO1 => "O1" case LlvmO2 => "O2"
    case LlvmO3 => "O3" case LlvmOs => "Os" case LlvmOz => "Oz"
  }

  /** The tag a C value of the enumeration type denotes.  The C type can hold
      any integer; only 0 through 5 name a tag. */
  function TagOf(x: int): (r: Option<PassLevel>)
    ensures r.Some? <==> 0 <= x < 6
  {
    if x == 0 then Some(O0)
    else if x == 1 then Some(O1)
    else if x == 2 then Some(O2)
    else if x == 3 then Some(O3)
    else if x == 4 then Some(Os)
    else if x == 5 then Some(Oz)
    else None
  }

  /** The C value of a tag: enumerators without initialisers count up from 0
      in declaration order. */
  function Ordinal(l: PassLevel): (n: nat)
    ensures n < 6
    ensures TagOf(n) == Some(l)
  {
    match l
    case O0 => 0 case O1 => 1 case O2 => 2
    case O3 => 3 case Os => 4 case Oz => 5
  }

  /** `as_llvm`.  `None` stands for the assertion failure of the `default`
      arm: the file undefines NDEBUG before including `<cassert>`, so the
      assertion is live in every build and the `return O0` after it is never
      reached. */
  function AsLlvm(x: int): (r: Option<LlvmLevel>)
    ensures r.None? <==> TagOf(x).None?
    ensures r.Some? ==> LlvmLevelName(r.value) == LevelName(TagOf(x).value)
  {
    if x == 0 then Some(LlvmO0)
    else if x == 1 then Some(LlvmO1)
    else if x == 2 then Some(LlvmO2)
    else if x == 3 then Some(LlvmO3)
    else if x == 4 then Some(LlvmOs)
    else if x == 5 then Some(LlvmOz)
    else None
  }

  /** No two tags translate to the same backend level. */
  lemma AsLlvmInjective(x: int, y: int)
    requires AsLlvm(x).Some? && AsLlvm(x) == AsLlvm(y)
    ensures x == y
  {
  }

  /** Every tag translates: the assertion can only be reached by a value that
      is not one of the six enumerators. */
  lemma AsLlvmTotalOnTags(l: PassLevel)
    ensures AsLlvm(Ordinal(l)).Some?
  {
  }

  /** An opaque `LLVMModuleRef`. */
  datatype ModuleRef = ModuleRef(address: nat)

  /** An opaque, possibly null, `LLVMTargetMachineRef`. */
  datatype TargetMachineRef = NullMachine | MachineRef(address: nat)

  /** The four analysis managers the runner creates. */
  datatype AnalysisManager = LoopManager | FunctionManager | CgsccManager | ModuleManager

  /** One call the runner makes into the pass infrastructure. */
  datatype PassEvent =
    | CreateManager(manager: AnalysisManager)
    | CreatePassBuilder(machine: TargetMachineRef)
    | RegisterAnalyses(manager: AnalysisManager)
    | CrossRegisterProxies
    | TranslateLevel(tag: int)
    | BuildO0DefaultPipeline(level: LlvmLevel)
    | BuildPerModuleDefaultPipeline(level: LlvmLevel)
    | RunPipeline(target: ModuleRef, analyses: AnalysisManager)
    | AssertionFailure

  /** The fixed setup every run starts with: four managers, the pass builder
      on the given machine, the analyses of each manager, then the proxies. */
  function Setup(t: TargetMachineRef): (s: seq<PassEvent>)
    ensures |s| == 10
    ensures forall i | 0 <= i < |s| ::
      s[i].CreateManager? || s[i].CreatePassBuilder? || s[i].RegisterAnalyses? || s[i].CrossRegisterProxies?
  {
    [ CreateManager(LoopManager), CreateManager(FunctionManager),
      CreateManager(CgsccManager), CreateManager(ModuleManager),
      CreatePassBuilder(t),
      RegisterAnalyses(ModuleManager), RegisterAnalyses(CgsccManager),
      RegisterAnalyses(FunctionManager), RegisterAnalyses(LoopManager),
      CrossRegisterProxies ]
  }

  /** `a` happens at some point strictly before `b` in `trace`. */
  ghost predicate Before(trace: seq<PassEvent>, a: PassEvent, b: PassEvent) {
    exists i, j :: 0 <= i < j < |trace| && trace[i] == a && trace[j] == b
  }

  /** The setup creates every manager before its analyses are registered,
      registers every manager's analyses before the proxies are
      cross-registered, and hands the machine to the pass builder. */
  lemma SetupOrder(t: TargetMachineRef, m: AnalysisManager)
    ensures Before(Setup(t), CreateManager(m), RegisterAnalyses(m))
    ensures Before(Setup(t), RegisterAnalyses(m), CrossRegisterProxies)
    ensures Before(Setup(t), CreatePassBuilder(t), RegisterAnalyses(m))
  {
    var s := Setup(t);
    var (c, r) := match m
      case LoopManager => (0, 8)
      case FunctionManager => (1, 7)
      case CgsccManager => (2, 6)
      case ModuleManager => (3, 5);
    assert s[c] == CreateManager(m) && s[r] == RegisterAnalyses(m);
    assert s[4] == CreatePassBuilder(t) && s[9] == CrossRegisterProxies;
  }

  /** `SwiftyLLVMRunDefaultModulePasses(self, t, optimization)`, where
      `optimization` is the raw C value received across the boundary. */
  method RunDefaultModulePasses(self: ModuleRef, t: TargetMachineRef, optimization: int)
    returns (trace: seq<PassEvent>)
    ensures |trace| >= 11 && trace[..10] == Setup(t)
    // The dedicated O0 pipeline is built exactly when the tag is O0.
    ensures BuildO0DefaultPipeline(LlvmO0) in trace <==> optimization == 0
    ensures forall e | e in trace :: e.BuildO0DefaultPipeline? ==> e.level == LlvmO0
    // `as_llvm` is consulted exactly when the tag is not O0 ...
    ensures TranslateLevel(optimization) in trace <==> optimization != 0
    // ... and the per-module pipeline is built at the translated level.
    ensures forall e | e in trace :: e.BuildPerModuleDefaultPipeline? ==>
      optimization != 0 && AsLlvm(optimization) == Some(e.level)
    ensures optimization != 0 && AsLlvm(optimization).Some? ==>
      BuildPerModuleDefaultPipeline(AsLlvm(optimization).value) in trace
    // A value outside the six tags stops at the assertion; otherwise the
    // pipeline runs exactly once, last, on the given module.
    ensures trace[|trace| - 1] == AssertionFailure <==> TagOf(optimization).None?
    ensures forall i | 0 <= i < |trace| - 1 :: trace[i] != AssertionFailure
    ensures TagOf(optimization).Some? ==>
      trace[|trace| - 1] == RunPipeline(self, ModuleManager) &&
      forall i | 0 <= i < |trace| - 1 :: !trace[i].RunPipeline?
  {
    trace := Setup(t);
    if optimization == 0 {
      trace := trace + [BuildO0DefaultPipeline(LlvmO0)];
    } else {
      trace := trace + [TranslateLevel(optimization)];
      var level := AsLlvm(optimization);
      if level.None? {
        trace := trace + [AssertionFailure];
        return;
      }
      trace := trace + [BuildPerModuleDefaultPipeline(level.value)];
    }
    trace := trace + [RunPipeline(self, ModuleManager)];
  }

  /** The documented contract of `SwiftyLLVMGetArgumentIndex`, whose body is
      not part of this model: a value is either the `index`-th formal
      parameter of some function or not an argument at all. */
  datatype IrValue = Argument(index: nat) | NotArgument

  /** The result the declaration promises: the argument's index, or -1. */
  function ArgumentIndex(v: IrValue): (r: int)
    ensures r >= -1
    ensures r == -1 <==> v.NotArgument?
    ensures v.Argument? ==> r == v.index
  {
    match v
    case Argument(i) => i
    case NotArgument => -1
  }
}
