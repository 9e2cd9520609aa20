/** The second-generation wrappers (`SwiftyLLVM2/`): the context that owns
    the modules it creates and identifies each by its position, and the
    module view whose data layout can be projected out by one witness at a
    time. */
module SwiftyLlvm2 {
  import opened Wrappers

  /** An opaque, non-null `LLVMModuleRef` wrapped as a `ModuleReference`. */
  datatype ModuleReference = ModuleReference(address: nat)

  /** `ConcreteLLVMIdentity<Module>`: a module's index in its context. */
  datatype ModuleId = ModuleId(raw: nat)

  /** The struct `LLVM`: an LLVM context and the modules created in it. */
  class LlvmContext {
    /** `modules`: the index of each module is its id. */
    var modules: seq<ModuleReference>

    /** `init()`: a context without modules. */
    constructor()
      ensures modules == []
    {
      modules := [];
    }

    /** The module an id names, when it names one. */
    function ModuleFor(id: ModuleId): (r: Option<ModuleReference>)
      reads this
      ensures r.Some? <==> id.raw < |modules|
      ensures r.Some? ==> r.value == modules[id.raw]
    {
      if id.raw < |modules| then Some(modules[id.raw]) else None
    }

    /** `createModule(named:)`.  `created` is the module the backend returns
        for `name`; the id is the former number of modules, so each new id is
        larger than every id handed out before and names the new module,
        and every earlier module keeps its id. */
    method CreateModule(name: string, created: ModuleReference) returns (id: ModuleId)
      modifies this
      ensures id.raw == old(|modules|)
      ensures modules == old(modules) + [created]
      ensures ModuleFor(id) == Some(created)
      ensures forall earlier: ModuleId | earlier.raw < old(|modules|) ::
        earlier.raw < id.raw && ModuleFor(earlier) == old(ModuleFor(earlier))
    {
      id := ModuleId(|modules|);
      modules := modules + [created];
    }
  }

  /** An opaque `LLVMTargetDataRef`. */
  datatype LayoutReference = LayoutReference(address: nat)

  /** `Module`: a temporary view of a module, with the flag that guards the
      projection of its data layout. */
  class ModuleView {
    const moduleReference: ModuleReference
    /** `isDataLayoutBorrowed`: a projection of the data layout is live. */
    var isDataLayoutBorrowed: bool
    /** The layouts handed to `LLVMDisposeTargetData`, in order. */
    ghost var disposed: seq<LayoutReference>

    /** `init(wrappingTemporarily:)`: a fresh view has no live projection. */
    constructor(wrapped: ModuleReference)
      ensures moduleReference == wrapped
      ensures !isDataLayoutBorrowed && disposed == []
    {
      moduleReference := wrapped;
      isDataLayoutBorrowed := false;
      disposed := [];
    }

    /** `withDataLayout(_:)`.  `layout` is the layout the backend returns for
        the module.  Calling it while a projection is live fails the
        precondition; the flag is set for the whole of the witness (`flagDuring`),
        so at most one projection is live at a time.  Afterwards, whether the
        witness returned or threw, the layout has been disposed and the flag
        is clear; the witness's outcome is passed on unchanged. */
    method WithDataLayout<R>(layout: LayoutReference, action: LayoutReference -> Completion<R>)
      returns (c: Completion<R>, ghost flagDuring: bool)
      requires !isDataLayoutBorrowed
      modifies this
      ensures flagDuring
      ensures c == action(layout)
      ensures !isDataLayoutBorrowed
      ensures disposed == old(disposed) + [layout]
    {
      isDataLayoutBorrowed := true;
      flagDuring := isDataLayoutBorrowed;
      c := action(layout);
      disposed := disposed + [layout];
      isDataLayoutBorrowed := false;
    }
  }
}
