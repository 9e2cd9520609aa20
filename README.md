# Swifty-LLVM core, modelled in Dafny

Swifty-LLVM is a Swift wrapper around the LLVM C API. This project models the
parts of it that hold logic of their own, rather than single calls into the
backend:

- **Entity stores.** Modules, values, types and attributes are kept in
  growing lists of optional handles, and an entity's identity is its position
  in the list. There are three stores:
  - the insert-based `EntityStore`;
  - the older create-based `EntityStore`;
  - the `BidirectionalEntityStore`, which also keeps a handle-to-id
    dictionary.

  All three lend an entity out for the duration of a projection and put it
  back afterwards, also when the witness throws.
- **SwiftyLLVM2.** The same id-equals-position idiom appears in
  `LLVM.createModule`. A one-flag borrow guard protects `withDataLayout`.
- **`Module`.** The model covers:
  - declaring functions and global variables (look up, or add);
  - registering a new function's parameters;
  - the arity precondition of `insertCall`;
  - the slot numbers passed to the backend when attributes are added or
    removed;
  - the typed and erased identity conversions;
  - the optimisation level handed to the C shim.
- **The C shim.** `as_llvm` translates a level. `SwiftyLLVMRunDefaultModulePasses`
  builds and runs a pipeline, modelled as the trace of calls it makes into the
  pass infrastructure.
- **Mirrors of backend enumerations.** `Linkage`, `AtomicOrdering` and
  `AtomicRMWBinOp` convert in both directions. The floating-point and integer
  comparison predicates also have a text form. For each, the model proves the
  round trips and injectivity.
- **Smaller pieces:**
  - the round-up arithmetic of `storageStride(of:)`;
  - the `Intrinsic.Name` builder;
  - the two command-line tools: the binding checker's presence counting and
    the pkg-config generator's string handling and version check.

Backend handles and enumeration constants are abstract, pairwise-distinct
values. Foreign calls are parameters: a handle the backend returns or a
predicate on files. Mutable Swift structs become Dafny classes whose methods
state their whole new state. Fatal errors and preconditions of the source
become `requires` clauses, except where the failing path is a value the model
returns (`None`, `Threw`, `AssertionFailure`).

| file | module(s) |
|---|---|
| wrappers.dfy | `Wrappers`: `Option`, `Completion` (a witness's return value or throw) |
| entities.dfy | `Entities`: ids, handle lists, the projection bracket as a function |
| entity_store.dfy | `EntityStores`: the insert-based store |
| legacy_entity_store.dfy | `LegacyEntityStores`: the create-based store |
| bidirectional_entity_store.dfy | `BidirectionalEntityStores` |
| context_module.dfy | `SwiftyLlvm2`: `LLVM` context and module view |
| passes.dfy | `Passes`: the C shim |
| module_values.dfy | `Modules`, `Identities`: the `Module` struct |
| mirrors.dfy | `Linkages`, `AtomicOrderings`, `AtomicRmwBinOps` |
| predicates.dfy | `FloatingPointPredicates`, `IntegerPredicates` |
| data_layout.dfy | `DataLayouts` |
| intrinsic.dfy | `Intrinsics` |
| binding_checker.dfy | `BindingChecker` |
| pkg_config.dfy | `PkgConfig` |

## Model

| member | source | states |
|---|---|---|
| Passes.TagOf | Sources/llvmshims/include/shim.h:12-19 | a C value of the level type is one of the six tags exactly when it lies in 0..5 |
| Passes.Ordinal | Sources/llvmshims/include/shim.h:12-19 | the tags O0, O1, O2, O3, Os, Oz have C values 0..5 in declaration order, and each value denotes its tag back |
| Passes.AsLlvm | Sources/llvmshims/src/shim.cc:27-45 | each of the six tags becomes the same-named backend level; every other value fails the always-active assertion instead of falling back to O0 |
| Passes.AsLlvmInjective | Sources/llvmshims/src/shim.cc:27-40 | no two tags translate to the same backend level |
| Passes.AsLlvmTotalOnTags | Sources/llvmshims/src/shim.cc:41-43 | no tag reaches the assertion; only a value outside the enumeration can |
| Passes.Setup | Sources/llvmshims/src/shim.cc:55-68 | the setup is ten calls: four managers, the pass builder on the unchanged machine handle, four registrations, then cross-registration |
| Passes.SetupOrder | Sources/llvmshims/src/shim.cc:55-68 | every manager is created before its analyses are registered, registrations precede cross-registration, and the builder exists before any registration |
| Passes.RunDefaultModulePasses | Sources/llvmshims/src/shim.cc:49-79 | after the fixed setup, the O0 pipeline is built iff the tag is O0. Otherwise `as_llvm` is consulted and the per-module pipeline is built at its result. A non-tag value stops at the assertion. Otherwise the pipeline runs exactly once, last, on the given module with the module manager |
| Passes.ArgumentIndex | Sources/llvmshims/include/shim.h:26-27 | the documented result: the argument's index for an argument, -1 for any other value, never below -1 |
| Modules.ShimLevel | Sources/SwiftyLLVM/Module.swift:231-241 | the four Swift levels map to O0..O3; Os and Oz are never produced, and `.none` is the only level that gives O0 |
| Modules.ShimLevelInjective | Sources/SwiftyLLVM/Module.swift:231-241 | distinct Swift levels give distinct tags |
| Modules.RunDefaultModulePasses | Sources/SwiftyLLVM/Module.swift:227-251 | the level defaults to `.none` and the machine to nil. A present machine is forwarded and otherwise a null one. The shim never hits its assertion, runs the pipeline last, and builds the O0 pipeline iff the level is `.none` |
| Modules.Module.constructor | Sources/SwiftyLLVM/Module.swift:165 | a fresh module has an empty value store and no named functions or globals |
| Modules.Module.FunctionNamed | Sources/SwiftyLLVM/Module.swift:303-307 | an identity is returned exactly for the names of existing functions, and it is the id whose store slot holds that function's handle; the empty name is never recorded, so it never finds an unnamed function |
| Modules.Module.GlobalNamed | Sources/SwiftyLLVM/Module.swift:310-313 | the same for global variables |
| Modules.Module.RegisterFunctionParameters | Sources/SwiftyLLVM/Module.swift:617-625 | one value-store entry per parameter the backend returns, appended in index order and skipping missing ones, with consecutive ids |
| Modules.Module.DeclareFunction | Sources/SwiftyLLVM/Module.swift:383-398 | an existing function of that name, whose type must agree, is returned and nothing changes. Otherwise the function is added under the next id, and its parameters are registered right after it. An empty name is never looked up successfully: it always adds a new function and leaves the name table unchanged |
| Modules.Module.AddFunction | Sources/SwiftyLLVM/Module.swift:392-396 | the new function's handle is inserted under the next id and typed, named unless the name is empty, and the store manages exactly one more handle |
| Modules.Module.AddGlobalVariable | Sources/SwiftyLLVM/Module.swift:352-365 | always inserts a fresh identity, even for a name already in use; the name table gains the name the backend assigned |
| Modules.Module.DeclareGlobalVariable | Sources/SwiftyLLVM/Module.swift:368-380 | an existing global of that name, whose type must agree, is returned unchanged; otherwise a new one is added under the next id, recorded under its name, or under no name when the name is empty |
| Modules.Module.InsertCall | Sources/SwiftyLLVM/Module.swift:1115-1139 | callable only when a non-variadic function type's parameter count equals the argument count; the call instruction is inserted under the next id |
| Modules.BitPattern | Sources/SwiftyLLVM/Module.swift:426 | `UInt32(bitPattern: Int32(x))`: the unsigned 32-bit value congruent to x |
| Modules.AddSlot | Sources/SwiftyLLVM/Module.swift:422-444 | the return value uses slot 0 and the function uses `LLVMAttributeFunctionIndex` reinterpreted as UInt32. Parameter p uses p.index + 1, never 0, and traps when that exceeds UInt32 |
| Modules.RemoveSlot | Sources/SwiftyLLVM/Module.swift:474-500 | the slots the removal methods use; the return slot is the literal 0 |
| Modules.AddRemoveSameSlot | Sources/SwiftyLLVM/Module.swift:426-499 | adding and removing an attribute address the same slot for every target |
| Modules.SlotsDistinct | Sources/SwiftyLLVM/Module.swift:433-441 | distinct targets whose parameter index stays below 2^32 - 2 never share a slot |
| Modules.LastParameterMeetsFunctionSlot | Sources/SwiftyLLVM/Module.swift:426-441 | parameter index 2^32 - 2 gets the function's slot |
| Identities.Erase | Sources/SwiftyLLVM/Module.swift:106-129 | a typed-to-erased conversion keeps the raw value and the family |
| Identities.Narrow | Sources/SwiftyLLVM/Module.swift:65-79 | an erased-to-typed conversion keeps the raw value and the family, and checks nothing |
| Identities.NarrowErase | Sources/SwiftyLLVM/Module.swift:65-129 | erasing a typed identity and narrowing it back gives it back |
| Identities.EraseNarrow | Sources/SwiftyLLVM/Module.swift:65-129 | narrowing an erased identity and erasing it again gives it back |
| Identities.EraseKeepsEntity | Sources/SwiftyLLVM/Identities.swift:11-37 | two identities of one family name the same entity iff their erased forms are equal |
| Entities.BodyEntry | Sources/SwiftyLLVM/Utils/EntityStore.swift:49-52 | while a witness runs, the projected entity is not contained and every other slot is as before |
| Entities.Lend | Sources/SwiftyLLVM/Utils/EntityStore.swift:88-95 | the store a projection's witness starts from: the slot is empty and its handle is lent out under the id |
| Entities.Step | Sources/SwiftyLLVM/Utils/EntityStore.swift:25-41 | one operation a witness performs on the store: an insertion appends, a removal or `unsafeExtract` empties a contained slot, `unsafeRestore` refills an extracted slot, and a nested projection is a bracket. Removing or extracting a missing entity and restoring into a filled slot are fatal. Inserting a handle the store already manages, held or lent out, and restoring anything but the extracted handle are outside the documented preconditions, which the model treats as a stop. The create-based store's witnesses cannot extract or restore |
| Entities.Bracket | Sources/SwiftyLLVM/Utils/EntityStore.swift:58-67 | a projection leaves the list no shorter, and the projected slot holds the same handle afterwards; the deferred restore is fatal when the slot has been refilled |
| Entities.RestoreNeverFails | Sources/SwiftyLLVM/Utils/EntityStore.swift:101-107 | unless the witness itself restores the projected entity, the restore at the end of a projection is never fatal: the projection fails only if the entity is missing or the witness fails |
| Entities.RestoringProjectedEntityIsFatal | Sources/SwiftyLLVM/Utils/EntityStore.swift:58-107 | a witness that hands the projected entity back with `unsafeRestore` stays within that method's precondition, and the projection's own deferred restore then stops the process |
| Entities.ExtractRestoreRoundTrip | Sources/SwiftyLLVM/Utils/EntityStore.swift:88-107 | `unsafeExtract` followed by `unsafeRestore` of the same handle leaves the store, including what is lent out, exactly as it was |
| Entities.EmptyStaysEmpty | Sources/SwiftyLLVM/Utils/EntityStore.swift:5-8 | indices are never reused: an empty slot stays empty, and an entity lent out stays lent out with its handle, through any witness that does not restore that slot itself |
| Entities.RunOpsFrame | Sources/SwiftyLLVM/Utils/EntityStore.swift:58-67 | every slot the witness does not remove, extract or restore, directly or in a nested projection, is as before, whether the witness returns or throws |
| Entities.BracketWithoutOps | Sources/SwiftyLLVM/Utils/EntityStore.swift:46-53 | a projection whose witness leaves the store alone leaves the store exactly as it was, also on a throw |
| Entities.NestedProjections | Sources/SwiftyLLVM/EntityStore.swift:85-94 | inside nested projections of two distinct ids neither is contained and all others are, and both are back afterwards |
| EntityStores.EntityStore.constructor | Sources/SwiftyLLVM/Utils/EntityStore.swift:8-11 | a new store is empty |
| EntityStores.EntityStore.Contains | Sources/SwiftyLLVM/Utils/EntityStore.swift:112-115 | true iff the id is in range and its slot is filled; an entity lent out is not contained |
| EntityStores.EntityStore.HandleFor | Sources/SwiftyLLVM/Utils/EntityStore.swift:118-121 | nil iff the entity is not contained, otherwise its slot's handle |
| EntityStores.EntityStore.Insert | Sources/SwiftyLLVM/Utils/EntityStore.swift:25-29 | requires an unmanaged handle. The new id is the old count, the handle is appended and contained under it, and earlier slots are unchanged |
| EntityStores.EntityStore.Remove | Sources/SwiftyLLVM/Utils/EntityStore.swift:34-41 | requires a contained entity, destroys its handle and empties its slot; the length and every other slot are unchanged |
| EntityStores.EntityStore.UnsafeExtract | Sources/SwiftyLLVM/Utils/EntityStore.swift:88-95 | requires a contained entity, returns its handle and empties the slot |
| EntityStores.EntityStore.UnsafeRestore | Sources/SwiftyLLVM/Utils/EntityStore.swift:101-107 | requires an extracted, unrestored entity and fills its slot again |
| EntityStores.EntityStore.Projecting | Sources/SwiftyLLVM/Utils/EntityStore.swift:46-53 | the witness sees the entity while its slot is empty, and the store is exactly as before afterwards, whether the witness returns or throws. The witness's outcome is passed on unchanged |
| EntityStores.EntityStore.ProjectingWithStore | Sources/SwiftyLLVM/Utils/EntityStore.swift:58-67 | the list and the lent-out entities end as `Bracket` describes for the witness's operations, also when it throws |
| EntityStores.EntityStore.Subscript | Sources/SwiftyLLVM/Utils/EntityStore.swift:70-82 | read and modify yield the entity's handle while its slot is empty, and leave the store as it was |
| EntityStores.EntityStore.Run | Sources/SwiftyLLVM/Utils/EntityStore.swift:58-67 | performing a witness's operations in order, `unsafeExtract` and `unsafeRestore` included, ends in the state `RunOps` describes |
| LegacyEntityStores.LegacyEntityStore.constructor | Sources/SwiftyLLVM/EntityStore.swift:8-11 | a new store is empty |
| LegacyEntityStores.LegacyEntityStore.Contains | Sources/SwiftyLLVM/EntityStore.swift:123-126 | true iff the id is in range and its slot is filled |
| LegacyEntityStores.LegacyEntityStore.CreateWithMutableThrowingContext | Sources/SwiftyLLVM/EntityStore.swift:23-29 | the created handle is appended under the old count, and the updated context is handed back. If creation throws, nothing is appended |
| LegacyEntityStores.LegacyEntityStore.CreateWithMutableContext | Sources/SwiftyLLVM/EntityStore.swift:32-38 | the created handle is appended under the old count, and the updated context is handed back |
| LegacyEntityStores.LegacyEntityStore.CreateWithThrowingContext | Sources/SwiftyLLVM/EntityStore.swift:41-47 | the created handle is appended under the old count; if creation throws the store is unchanged |
| LegacyEntityStores.LegacyEntityStore.Create | Sources/SwiftyLLVM/EntityStore.swift:50-56 | the created handle is appended under the old count, so successive ids are distinct |
| LegacyEntityStores.LegacyEntityStore.Remove | Sources/SwiftyLLVM/EntityStore.swift:61-68 | requires a filled slot, destroys its handle and empties it; other slots are intact |
| LegacyEntityStores.LegacyEntityStore.Extract | Sources/SwiftyLLVM/EntityStore.swift:99-106 | requires a filled slot, returns its handle and empties it |
| LegacyEntityStores.LegacyEntityStore.Restore | Sources/SwiftyLLVM/EntityStore.swift:112-118 | requires an empty slot and fills it |
| LegacyEntityStores.LegacyEntityStore.Projecting | Sources/SwiftyLLVM/EntityStore.swift:73-80 | the entity is absent while the witness runs and present afterwards, also on a throw; the outcome is passed on |
| LegacyEntityStores.LegacyEntityStore.ProjectingWithStore | Sources/SwiftyLLVM/EntityStore.swift:85-94 | the store ends as `Bracket` describes, so changes the witness made before a throw persist |
| LegacyEntityStores.LegacyEntityStore.Run | Sources/SwiftyLLVM/EntityStore.swift:85-94 | performing a witness's operations in order ends in the list `RunOps` describes |
| LegacyEntityStores.RunOpsIgnoresLent | Sources/SwiftyLLVM/EntityStore.swift:23-56 | the create-based store has no uniqueness precondition, so what is lent out plays no part in whether a witness stops or in the list it leaves |
| BidirectionalEntityStores.InverseLookup | Sources/SwiftyLLVM/Utils/BidirectionalEntityStore.swift:7-11 | under the store's invariant, `id(for: h) == id` iff `id`'s slot holds `h` |
| BidirectionalEntityStores.InverseUnique | Sources/SwiftyLLVM/Utils/BidirectionalEntityStore.swift:7-11 | a handle list has at most one inverse dictionary |
| BidirectionalEntityStores.InverseDistinct | Sources/SwiftyLLVM/Utils/BidirectionalEntityStore.swift:7-11 | the invariant rules out a handle held in two slots |
| BidirectionalEntityStores.HandleSubscriptBreaksInverseDuringAccess | Sources/SwiftyLLVM/Utils/BidirectionalEntityStore.swift:141-154 | during a handle-subscript access the dictionary keeps the entry of the emptied slot, so it is not the inverse of the list |
| BidirectionalEntityStores.BidirectionalEntityStore.constructor | Sources/SwiftyLLVM/Utils/BidirectionalEntityStore.swift:7-14 | a new store and dictionary are empty |
| BidirectionalEntityStores.BidirectionalEntityStore.Contains | Sources/SwiftyLLVM/Utils/BidirectionalEntityStore.swift:98-100 | the underlying store's `contains` |
| BidirectionalEntityStores.BidirectionalEntityStore.ContainsHandle | Sources/SwiftyLLVM/Utils/BidirectionalEntityStore.swift:103-105 | under the invariant, true iff the handle is held in some slot |
| BidirectionalEntityStores.BidirectionalEntityStore.IdFor | Sources/SwiftyLLVM/Utils/BidirectionalEntityStore.swift:108-110 | under the invariant, the id exactly when that id's slot holds the handle |
| BidirectionalEntityStores.BidirectionalEntityStore.Insert | Sources/SwiftyLLVM/Utils/BidirectionalEntityStore.swift:19-24 | a handle already in the dictionary fails the runtime precondition. A handle lent out passes that check but is against the documented precondition, which the model treats as a stop; so the requires excludes every managed handle. The handle is appended under the old count, `id(for:)` then returns the new id, and the dictionary remains the inverse of the slots |
| BidirectionalEntityStores.BidirectionalEntityStore.Remove | Sources/SwiftyLLVM/Utils/BidirectionalEntityStore.swift:29-32 | afterwards neither the id nor the handle is contained and `id(for:)` is nil; the invariant is kept |
| BidirectionalEntityStores.BidirectionalEntityStore.UnsafeExtract | Sources/SwiftyLLVM/Utils/BidirectionalEntityStore.swift:80-84 | removes both the slot and the dictionary entry |
| BidirectionalEntityStores.BidirectionalEntityStore.UnsafeRestore | Sources/SwiftyLLVM/Utils/BidirectionalEntityStore.swift:92-95 | re-adds both the slot and the dictionary entry for the id the handle came from |
| BidirectionalEntityStores.BidirectionalEntityStore.Projecting | Sources/SwiftyLLVM/Utils/BidirectionalEntityStore.swift:37-44 | during the witness neither the id nor the handle is contained; afterwards slot and mapping are back, also on a throw |
| BidirectionalEntityStores.BidirectionalEntityStore.ProjectingWithStore | Sources/SwiftyLLVM/Utils/BidirectionalEntityStore.swift:49-58 | the list and the lent-out entities end as `Bracket` describes, the dictionary is again their inverse, and the projected handle maps to its id again |
| BidirectionalEntityStores.BidirectionalEntityStore.Subscript | Sources/SwiftyLLVM/Utils/BidirectionalEntityStore.swift:61-74 | during the access neither the id nor the handle is contained; afterwards store and dictionary are as before |
| BidirectionalEntityStores.BidirectionalEntityStore.ProjectingByHandle | Sources/SwiftyLLVM/Utils/BidirectionalEntityStore.swift:117-125 | resolves the handle through `id(for:)`, fatal for an unknown one, and projects that id |
| BidirectionalEntityStores.BidirectionalEntityStore.ProjectingWithStoreByHandle | Sources/SwiftyLLVM/Utils/BidirectionalEntityStore.swift:130-138 | resolves the handle and runs the store-taking projection; the handle keeps its id |
| BidirectionalEntityStores.BidirectionalEntityStore.SubscriptByHandle | Sources/SwiftyLLVM/Utils/BidirectionalEntityStore.swift:141-154 | the slot is empty during the access while the dictionary keeps its entry; afterwards both are as before |
| BidirectionalEntityStores.BidirectionalEntityStore.Run | Sources/SwiftyLLVM/Utils/BidirectionalEntityStore.swift:49-95 | performing a witness's operations in order, `unsafeExtract` and `unsafeRestore` included, ends in the state `RunOps` describes, keeping the invariant |
| SwiftyLlvm2.LlvmContext.constructor | Sources/SwiftyLLVM2/LLVMContext.swift:35 | a new context has no modules |
| SwiftyLlvm2.LlvmContext.ModuleFor | Sources/SwiftyLLVM2/LLVMContext.swift:34-35 | an id names a module exactly when it is an index of `modules`, and the index is the id |
| SwiftyLlvm2.LlvmContext.CreateModule | Sources/SwiftyLLVM2/LLVMContext.swift:38-43 | the new id is the old number of modules. `modules` grows by exactly the created module, and earlier ids still name their modules |
| SwiftyLlvm2.ModuleView.constructor | Sources/SwiftyLLVM2/Module.swift:10-15 | a freshly wrapped module has no live data-layout projection |
| SwiftyLlvm2.ModuleView.WithDataLayout | Sources/SwiftyLLVM2/Module.swift:30-42 | requires no live projection. The flag is set while the witness runs. Afterwards it is clear again and the layout is disposed, whether the witness returns or throws. The witness's outcome is returned unchanged |
| Linkages.FromLlvm | Sources/LLVM/Linkage.swift:75-100 | only the ten listed backend constants are accepted, any other is fatal; weak-any gives `.weak` and external-weak `.externWeak` and only they do |
| Linkages.ToLlvm | Sources/LLVM/Linkage.swift:103-126 | every case goes to one of the ten listed constants, `.weak` and `.externWeak` to their own |
| Linkages.RoundTrip | Sources/LLVM/Linkage.swift:75-126 | `Linkage(llvm: l.llvm) == l` for every case |
| Linkages.LlvmRoundTrip | Sources/LLVM/Linkage.swift:75-126 | an accepted constant converts back to itself |
| Linkages.ToLlvmInjective | Sources/LLVM/Linkage.swift:103-126 | distinct cases go to distinct constants |
| Linkages.DeclarationLinkages | Sources/LLVM/Linkage.swift:5-126 | the linkages allowed on a declaration (`ValidForDeclaration`) are exactly those whose constant is external or external-weak, and converting back accepts exactly those two constants as declaration linkages |
| AtomicOrderings.FromLlvm | Sources/SwiftyLLVM/AtomicOrdering.swift:47-66 | only the seven listed constants are accepted; acquire-release gives `.acquireRelease` and only it does |
| AtomicOrderings.ToLlvm | Sources/SwiftyLLVM/AtomicOrdering.swift:69-86 | every case goes to a listed constant, `.acquireRelease` exactly to acquire-release |
| AtomicOrderings.RoundTrip | Sources/SwiftyLLVM/AtomicOrdering.swift:47-86 | `AtomicOrdering(llvm: o.llvm) == o` for every case |
| AtomicOrderings.LlvmRoundTrip | Sources/SwiftyLLVM/AtomicOrdering.swift:47-86 | an accepted constant converts back to itself |
| AtomicOrderings.ToLlvmInjective | Sources/SwiftyLLVM/AtomicOrdering.swift:69-86 | distinct cases go to distinct constants |
| AtomicRmwBinOps.FromLlvm | Sources/SwiftyLLVM/AtomicRMWBinOp.swift:39-74 | only the fifteen listed constants are accepted; unsigned max gives `.uMax` and signed max `.max`, and only they do |
| AtomicRmwBinOps.ToLlvm | Sources/SwiftyLLVM/AtomicRMWBinOp.swift:77-110 | every case goes to a listed constant, `.uMax` and `.max` to their own |
| AtomicRmwBinOps.RoundTrip | Sources/SwiftyLLVM/AtomicRMWBinOp.swift:39-110 | `AtomicRMWBinOp(llvm: op.llvm) == op` for every case |
| AtomicRmwBinOps.LlvmRoundTrip | Sources/SwiftyLLVM/AtomicRMWBinOp.swift:39-110 | an accepted constant converts back to itself |
| AtomicRmwBinOps.ToLlvmInjective | Sources/SwiftyLLVM/AtomicRMWBinOp.swift:77-110 | distinct cases go to distinct constants |
| FloatingPointPredicates.Parse | Sources/SwiftyLLVM/Values/Instructions/FloatingPointPredicate.swift:99-101 | a parsed predicate has exactly the given text, and a text that is no predicate's gives nil |
| FloatingPointPredicates.ParseDescription | Sources/SwiftyLLVM/Values/Instructions/FloatingPointPredicate.swift:97-105 | parsing a predicate's description gives it back |
| FloatingPointPredicates.DescriptionIsListed | Sources/SwiftyLLVM/Values/Instructions/FloatingPointPredicate.swift:7-55 | the texts are "false", "true" and the fourteen case names |
| FloatingPointPredicates.DescriptionInjective | Sources/SwiftyLLVM/Values/Instructions/FloatingPointPredicate.swift:7-55 | the sixteen texts are pairwise distinct |
| FloatingPointPredicates.ToLlvmInjective | Sources/SwiftyLLVM/Values/Instructions/FloatingPointPredicate.swift:58-93 | `.llvm` sends the sixteen predicates to distinct backend constants |
| IntegerPredicates.Parse | Sources/SwiftyLLVM/Values/Instructions/IntegerPredicate.swift:66-68 | a parsed predicate has exactly the given text, and any other string gives nil |
| IntegerPredicates.ParseDescription | Sources/SwiftyLLVM/Values/Instructions/IntegerPredicate.swift:64-72 | parsing a predicate's description gives it back |
| IntegerPredicates.DescriptionIsListed | Sources/SwiftyLLVM/Values/Instructions/IntegerPredicate.swift:7-34 | the texts are eq, ne, ugt, uge, ult, ule, slt, sge, sgt, sle |
| IntegerPredicates.ToLlvmInjective | Sources/SwiftyLLVM/Values/Instructions/IntegerPredicate.swift:37-60 | `.llvm` sends the ten predicates to distinct same-named constants |
| DataLayouts.StorageStride | Sources/SwiftyLLVM/DataLayout.swift:35-39 | with a positive alignment, the stride is the least multiple of the alignment at or above the size, below size + align. `None` is the overflow trap of `size + align` on 64-bit `Int`, which Swift evaluates before subtracting 1. `Sources/LLVM/DataLayout.swift:30-34` has the same body |
| DataLayouts.RoundUpBounds | Sources/SwiftyLLVM/DataLayout.swift:38 | `(size + align - 1) / align * align` is a multiple of `align`, at least `size`, within one alignment of it, and no larger than any multiple at or above `size` |
| DataLayouts.StrideOfAlignedSize | Sources/SwiftyLLVM/DataLayout.swift:38 | a size that is already a multiple of the alignment is its own stride |
| DataLayouts.StrideOfLargestSize | Sources/SwiftyLLVM/DataLayout.swift:38 | size `Int.max` with alignment 1 traps, because `size + align` overflows before the subtraction |
| DataLayouts.StrideOfI32 | Sources/LLVM/DataLayout.swift:30-34 | size 4 with alignment 4 gives stride 4 |
| Intrinsics.Member | Sources/SwiftyLLVM/Values/Constants/Intrinsic.swift:62-64 | the parent's text is a proper prefix of the result, followed by a dot and the member, so the length grows by the member plus one |
| Intrinsics.Resolve | Sources/SwiftyLLVM/Values/Constants/Intrinsic.swift:57-69 | every name reachable from the root `llvm` starts with "llvm", and each access extends its parent's name |
| Intrinsics.ResolveLength | Sources/LLVM/Values/Constants/Intrinsic.swift:51-58 | a chain of n accesses gives a name of at least 4 + n characters |
| Intrinsics.CoroIdRetconOnce | Sources/SwiftyLLVM/Values/Constants/Intrinsic.swift:62-69 | `.coro.id.retcon.once` gives "llvm.coro.id.retcon.once" |
| BindingChecker.Occurs | Sources/BindingChecker/main.swift:101 | `s.contains(symbol)` with Foundation's `contains(_:)`: true iff the symbol is non-empty and occurs at some position of the text, so an empty symbol is never present |
| BindingChecker.IsPresentInBindings | Sources/BindingChecker/main.swift:100-102 | true iff the symbol is non-empty and a substring of at least one bindings file's contents |
| BindingChecker.CountPresent | Sources/BindingChecker/main.swift:24-27 | the present count of a category is at most its size |
| BindingChecker.MissingNames | Sources/BindingChecker/main.swift:80-93 | present plus missing make up the category |
| BindingChecker.NothingMissing | Sources/BindingChecker/main.swift:80-93 | the missing list is empty iff every entry is present |
| BindingChecker.MissingNamesMembers | Sources/BindingChecker/main.swift:80-93 | a name is listed as missing iff some entry of that name is not present |
| BindingChecker.MissingNamesConcat | Sources/BindingChecker/main.swift:80-93 | filtering keeps the original order |
| BindingChecker.TotalReport | Sources/BindingChecker/main.swift:55-64 | `total - totalMissing` is the number of present symbols over all headers and categories, between 0 and `total` |
| BindingChecker.Recorded | Sources/BindingChecker/main.swift:110-132 | only main-file declarations are recorded. An anonymous enum is left out of the enums, but its constants are still recorded as enum cases. Every other category holds at most the declaration's own name |
| BindingChecker.NamesConcat | Sources/BindingChecker/main.swift:104-137 | the names recorded for two runs of nodes visited one after the other are those of the first run followed by those of the second |
| BindingChecker.OnlyMainFileRecorded | Sources/BindingChecker/main.swift:110 | dropping every declaration from another file changes no category |
| BindingChecker.Records | Sources/BindingChecker/main.swift:113-131 | one presence record per name, in order, each stating whether the name occurs in the bindings |
| BindingChecker.AnalyzeFile | Sources/BindingChecker/main.swift:104-137 | the header built by visiting the nodes in order equals the category-wise records of their main-file declarations |
| BindingChecker.VisitNode | Sources/BindingChecker/main.swift:110-133 | one visit appends each category's records for that node |
| BindingChecker.AppendCases | Sources/BindingChecker/main.swift:123-126 | an enum's constants are appended, in order, as enum-case records |
| PkgConfig.ReplacingNewlinesBySpaces | Tools/make-pkgconfig.swift:15-19 | every newline becomes one space and every other character is kept, so the length is kept and no newline remains |
| PkgConfig.Components | Tools/make-pkgconfig.swift:98 | `components(separatedBy:)`: at least one part, none holding the separator, and joining them gives the text back |
| PkgConfig.ComponentsOfJoin | Tools/make-pkgconfig.swift:98 | splitting a join of separator-free parts gives the parts back |
| PkgConfig.NonEmptyComponents | Tools/make-pkgconfig.swift:50 | `split(separator:)`: non-empty, separator-free runs |
| PkgConfig.NonEmpty | Tools/make-pkgconfig.swift:50 | keeps exactly the non-empty parts: each one kept is a non-empty part and every non-empty part is kept |
| PkgConfig.NonEmptyConcat | Tools/make-pkgconfig.swift:50 | dropping empty parts keeps the order: it distributes over concatenation |
| PkgConfig.NonEmptyOfNonEmpty | Tools/make-pkgconfig.swift:50 | parts that are all non-empty are kept as they are |
| PkgConfig.SplitOfJoin | Tools/make-pkgconfig.swift:50 | `split(separator:)` of a join of non-empty, separator-free entries gives the entries back, in order |
| PkgConfig.Find | Tools/make-pkgconfig.swift:27-61 | a name containing "/" is returned unchanged. Otherwise the current directory is tried first; failing that, the path returned is the first PATH entry, in order, whose candidate exists. Any path returned exists. The error is thrown iff no candidate exists |
| PkgConfig.FirstExisting | Tools/make-pkgconfig.swift:50-55 | the first PATH entry holding the executable, or none iff no entry does |
| PkgConfig.PathOrDefault | Tools/make-pkgconfig.swift:49 | the environment's PATH, or "/usr/bin" when it is unset |
| PkgConfig.DefaultSearchPath | Tools/make-pkgconfig.swift:49-50 | without PATH the only place searched is /usr/bin |
| PkgConfig.ParseInt | Tools/make-pkgconfig.swift:98 | `Int(_:)`: an optional sign and decimal digits within 64-bit range; the empty string is no number |
| PkgConfig.Digits | Tools/make-pkgconfig.swift:119 | the decimal digits of a natural number, which read back to it |
| PkgConfig.ParseDecimal | Tools/make-pkgconfig.swift:119 | parsing the printed form of any 64-bit integer gives it back |
| PkgConfig.RequiredVersionMajorAsWritten | Tools/make-pkgconfig.swift:92 | the expression as written: a value only when an argument after the program name parses; no argument traps |
| PkgConfig.DefaultIsUnreachable | Tools/make-pkgconfig.swift:92 | with only the program name the default 15 is never used: the expression traps |
| PkgConfig.RequiredVersionMajor | Tools/make-pkgconfig.swift:92 | corrected: 15 without a user argument, and otherwise the parsed argument, trapping iff it does not parse |
| PkgConfig.ReadingsAgreeWithArgument | Tools/make-pkgconfig.swift:92 | with a user argument the two readings agree |
| PkgConfig.Numbers | Tools/make-pkgconfig.swift:98 | `compactMap({ Int($0) })` keeps at most the parts there are |
| PkgConfig.NumbersConcat | Tools/make-pkgconfig.swift:98 | the kept numbers of two runs of parts are those of the first then the second |
| PkgConfig.NonNumericPartDropped | Tools/make-pkgconfig.swift:98 | a part that is not an integer is dropped silently |
| PkgConfig.CheckVersion | Tools/make-pkgconfig.swift:98-104 | a version is accepted iff it has exactly three numeric components, the first at least the required major. "invalid LLVM version" is raised iff the count is not three. "requires LLVM" is raised iff there are three but the major is too low |
| PkgConfig.DecimalAll | Tools/make-pkgconfig.swift:119 | each component printed in decimal, in order |
| PkgConfig.WellFormedVersion | Tools/make-pkgconfig.swift:98-119 | a version "a.b.c" whose major is high enough is accepted as [a, b, c], and the emitted Version field reproduces it |

## Left out

- Everything that calls into LLVM is outside the model. The backend's
  results are parameters: the handle a creation returns, the existing function
  for a name, a callee's type. This covers the pass pipelines' effect on IR,
  the missing body of `SwiftyLLVMGetArgumentIndex`, the IR builders, types,
  verification, code generation, names and data-layout queries.
- `demandId` has no definition in the repository and is not part of this model.
- Entity destruction and `deinit`: destroyed handles are only recorded, in a
  ghost `destroyed` list. `LLVMContext`'s disposal is not modelled.
- The payload of an entity (what a witness does to the entity itself) lives in
  the backend. A witness is modelled by its outcome and, for store-taking
  witnesses, by the sequence of store operations it performs: insertions or
  creations, removals, nested projections, and, for the insert-based stores,
  `unsafeExtract` and `unsafeRestore`.
- `Entities.Step`: a witness of the insert-based store that restores a slot
  with a handle other than the one extracted from it is treated as a stop.
  The bidirectional store documents this as a precondition, but the plain
  insert-based store does not, and there such a witness runs on in the source.
- The no-context `create()` shorthands (Sources/SwiftyLLVM/EntityStore.swift:164-178)
  are instances of the context-taking overloads and are not
  separate members.
- `Module`'s type and attribute stores: only the value store is modelled.
  Attribute attachment is modelled only as the slot number passed to the
  backend.
- Functions and globals are named in separate tables. The backend's single
  symbol table is not modelled.
- The Windows branch of `find`. The `/usr/bin/which` fallback
  (Tools/make-pkgconfig.swift:56-58) is left out: it calls the throwing
  `runCommandLine` without `try` and returns a `URL` where a `String` is
  expected, so the Swift compiler rejects the whole script as written. Process spawning, file writing and pkg-config
  output other than the Version field are also left out.
- URL path semantics: appending a path component is the `append` parameter
  of `PkgConfig.Find`, and file existence is the `fileExists` parameter.
- `PkgConfig.ReplacingNewlinesBySpaces`: works on Unicode scalars, so a
  CR-LF pair, which Swift treats as one `Character`, becomes two spaces here,
  not one.
- `BindingChecker.Occurs`: compares code points, not Swift's canonical
  equivalence of grapheme clusters (the empty symbol is modelled: it is
  never contained).
- `PkgConfig.Find` and `PkgConfig.NonEmptyComponents`: the `contains("/")`
  test and the `split(separator: ":")` compare code points, where Swift
  compares `Character`s; a "/" or ":" followed by a combining mark is a
  separator here but not in Swift.
- `BindingChecker.TotalReport`: Swift's 64-bit overflow trap in the `reduce`
  sums is not modelled; the totals are unbounded integers.
- Clang parsing and the visitor: `analyzeFile` is modelled on the flattened
  sequence of visited nodes, each with its main-file flag and declaration
  kind.
- `Modules.SlotsDistinct`: stated only for parameter indices below
  2^32 - 2, because index 2^32 - 2 does collide with the function slot (see
  `Modules.LastParameterMeetsFunctionSlot`).
- `Modules.Module.AddGlobalVariable`: the name the backend assigns on a
  clash is the `assignedName` parameter, constrained only to be fresh.
- `Modules.Module.InsertCall`: the instruction's operands and the debug
  message built before the precondition failure are not modelled.
- `Intrinsic.llvm` is a `static var` in the `LLVM` tree, so other code could
  reassign it. Nothing in the repository does, and the model treats it as
  the constant "llvm".
- Thin wrapper types, one-way mirrors without an inverse (`CodeModel`,
  `RelocationModel`, code-generation result types), floating-point
  constants, C-string decoding, memory buffers and targets are outside the
  core.

## Findings

| source | as written | input that shows it | evidently intended | confidence | as-written member | corrected member |
|---|---|---|---|---|---|---|
| Tools/make-pkgconfig.swift:92 | `CommandLine.arguments.count > 0 ? Int(CommandLine.arguments[1])! : 15` | the tool run with no argument, once the type errors at lines 56-58 are fixed so that the script compiles: `CommandLine.arguments == [program]`, whose count is 1, so `arguments[1]` is out of range and traps | `count > 1`, so that 15 is the default when no version is given | not executed | PkgConfig.DefaultIsUnreachable | PkgConfig.RequiredVersionMajor |
