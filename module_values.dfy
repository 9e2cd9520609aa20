/** The value bookkeeping of a module (`SwiftyLLVM/Module.swift`): every
    backend value the wrapper hands out gets an identity in the module's
    bidirectional value store.  The backend is a set of fields standing for
    what it would answer (`LLVMGetNamedFunction`, `LLVMGetNamedGlobal`, the
    type of each value), and the handles it creates are parameters. */
module Modules {
  import opened Wrappers
  import opened Entities
  import opened EntityStores
  import opened BidirectionalEntityStores
  import Passes

  /** `ValueRef`: a handle to a backend value. */
  datatype ValueRef = ValueRef(address: nat)

  /** The identity of a type in the module's type store, which is not part of
      this model. */
  datatype TypeId = TypeId(raw: nat)

  /** What `FunctionType(_:)` makes of a callee's type: a function type with
      its parameter count and variadic flag, or not a function type. */
  datatype CalleeType = FunctionType(parameterCount: nat, isVarArg: bool) | NotAFunctionType

  /** The handles a run of `LLVMGetParam` answers produced, in order, with the
      `nil` answers skipped. */
  function Present(ps: seq<Option<ValueRef>>): (r: seq<ValueRef>)
    ensures |r| <= |ps|
    ensures forall k | 0 <= k < |r| :: Some(r[k]) in ps
  {
    if ps == [] then []
    else Present(ps[..|ps| - 1]) + (if ps[|ps| - 1].Some? then [ps[|ps| - 1].value] else [])
  }

  /** Handles as store slots. */
  function Wrap(hs: seq<ValueRef>): (r: Slots<ValueRef>)
    ensures |r| == |hs| && forall k | 0 <= k < |hs| :: r[k] == Some(hs[k])
  {
    seq(|hs|, k requires 0 <= k < |hs| => Some(hs[k]))
  }

  /** The live handles of a list grow by exactly the appended handle. */
  lemma LiveHandlesAppend(hs: Slots<ValueRef>, h: ValueRef)
    ensures LiveHandles(hs + [Some(h)]) == LiveHandles(hs) + {h}
  {
    var hs' := hs + [Some(h)];
    assert hs'[|hs|] == Some(h);
    forall x | x in LiveHandles(hs')
      ensures x in LiveHandles(hs) + {x}
    {
      var i :| 0 <= i < |hs'| && hs'[i].Some? && hs'[i].value == x;
      if i < |hs| {
        assert hs[i] == hs'[i];
      }
    }
    forall x | x in LiveHandles(hs)
      ensures x in LiveHandles(hs')
    {
      var i :| 0 <= i < |hs| && hs[i].Some? && hs[i].value == x;
      assert hs'[i] == hs[i];
    }
  }

  /** One more answer extends `Wrap(Present(..))` by its slot, if any. */
  lemma PresentStep(ps: seq<Option<ValueRef>>, index: nat)
    requires index < |ps|
    ensures Wrap(Present(ps[..index + 1])) ==
      Wrap(Present(ps[..index])) + (if ps[index].Some? then [Some(ps[index].value)] else [])
  {
    assert ps[..index + 1][..index] == ps[..index];
    var done := Present(ps[..index]);
    if ps[index].Some? {
      assert Wrap(done + [ps[index].value]) == Wrap(done) + [Some(ps[index].value)];
    }
  }

  /** Handles appended after `start` are mapped to consecutive identities. */
  lemma ConsecutiveIds(start: Slots<ValueRef>, hs: seq<ValueRef>, m: map<ValueRef, EntityId>)
    requires Inverse(start + Wrap(hs), m)
    ensures forall k | 0 <= k < |hs| :: hs[k] in m && m[hs[k]] == EntityId(|start| + k)
  {
    forall k | 0 <= k < |hs|
      ensures hs[k] in m && m[hs[k]] == EntityId(|start| + k)
    {
      assert (start + Wrap(hs))[|start| + k] == Some(hs[k]);
    }
  }

  /** No handle is answered for two parameter indices. */
  predicate DistinctAnswers(ps: seq<Option<ValueRef>>) {
    forall i, j | 0 <= i < j < |ps| :: ps[i].Some? && ps[j].Some? ==> ps[i].value != ps[j].value
  }

  class Module {
    /** `values`: the identities of the module's values. */
    const values: BidirectionalEntityStore<ValueRef>
    /** The backend's functions, by name. */
    var functionNamed: map<string, ValueRef>
    /** The backend's named global variables, by name. */
    var globalNamed: map<string, ValueRef>
    /** The backend's type of each value (`valueType(in:)`). */
    var valueTypeOf: map<ValueRef, TypeId>

    /** The value store is well formed, and every named function and global
        has an identity and a type. */
    ghost predicate Valid()
      reads this, values, values.store
    {
      && values.Valid()
      && "" !in functionNamed && "" !in globalNamed
      && (forall n | n in functionNamed ::
            functionNamed[n] in values.handleToId && functionNamed[n] in valueTypeOf)
      && (forall n | n in globalNamed ::
            globalNamed[n] in values.handleToId && globalNamed[n] in valueTypeOf)
    }

    /** A module with no values. */
    constructor()
      ensures Valid() && fresh(values) && fresh(values.store)
      ensures values.store.handles == [] && values.store.lent == map[]
      ensures functionNamed == map[] && globalNamed == map[] && valueTypeOf == map[]
    {
      values := new BidirectionalEntityStore();
      functionNamed := map[];
      globalNamed := map[];
      valueTypeOf := map[];
    }

    /** `function(named:)`: the identity of the function with that name, if
        the backend has one. */
    function FunctionNamed(name: string): (r: Option<EntityId>)
      reads this, values, values.store
      requires Valid()
      ensures r.Some? <==> name in functionNamed
      ensures r.Some? ==> values.store.HandleFor(r.value) == Some(functionNamed[name])
    {
      if name !in functionNamed then None
      else
        var id := values.IdFor(functionNamed[name]);
        assert id.Some?;
        id
    }

    /** `global(named:)`: the identity of the global with that name, if the
        backend has one. */
    function GlobalNamed(name: string): (r: Option<EntityId>)
      reads this, values, values.store
      requires Valid()
      ensures r.Some? <==> name in globalNamed
      ensures r.Some? ==> values.store.HandleFor(r.value) == Some(globalNamed[name])
    {
      if name !in globalNamed then None
      else
        var id := values.IdFor(globalNamed[name]);
        assert id.Some?;
        id
    }

    /** The handles a backend call creates are new to the value store. */
    ghost predicate NewValues(ps: seq<Option<ValueRef>>)
      reads this, values, values.store
    {
      DistinctAnswers(ps) &&
      forall j | 0 <= j < |ps| && ps[j].Some? :: ps[j].value !in values.store.Managed()
    }

    /** `registerFunctionParameters(_:)`: `parameters` holds the backend's
        answer for each parameter index in `0..<count`.  Each present
        parameter is inserted, in index order, so the parameters get
        consecutive identities. */
    method RegisterFunctionParameters(parameters: seq<Option<ValueRef>>)
      requires Valid() && NewValues(parameters)
      modifies values, values.store
      ensures Valid()
      ensures values.store.handles == old(values.store.handles) + Wrap(Present(parameters))
      ensures values.store.lent == old(values.store.lent)
      ensures forall k | 0 <= k < |Present(parameters)| ::
        values.IdFor(Present(parameters)[k]) == Some(EntityId(old(|values.store.handles|) + k))
    {
      ghost var start := values.store.handles;
      for index := 0 to |parameters|
        invariant Valid()
        invariant values.store.handles == start + Wrap(Present(parameters[..index]))
        invariant values.store.lent == old(values.store.lent)
        invariant forall j | index <= j < |parameters| && parameters[j].Some? ::
          parameters[j].value !in values.store.Managed()
      {
        RegisterAnswer(start, parameters, index);
      }
      assert parameters[..|parameters|] == parameters;
      ConsecutiveIds(start, Present(parameters), values.handleToId);
    }

    /** The answer for parameter `index`: inserted when present, skipped
        when `nil`. */
    method RegisterAnswer(ghost start: Slots<ValueRef>, parameters: seq<Option<ValueRef>>, index: nat)
      requires index < |parameters| && DistinctAnswers(parameters)
      requires Valid() && values.store.handles == start + Wrap(Present(parameters[..index]))
      requires forall j | index <= j < |parameters| && parameters[j].Some? ::
        parameters[j].value !in values.store.Managed()
      modifies values, values.store
      ensures Valid()
      ensures values.store.handles == start + Wrap(Present(parameters[..index + 1]))
      ensures values.store.lent == old(values.store.lent)
      ensures forall j | index + 1 <= j < |parameters| && parameters[j].Some? ::
        parameters[j].value !in values.store.Managed()
    {
      PresentStep(parameters, index);
      if parameters[index].Some? {
        RegisterParameter(parameters[index].value);
      }
    }

    /** One `values.insert` of a parameter's handle. */
    method RegisterParameter(h: ValueRef)
      requires Valid() && h !in values.store.Managed()
      modifies values, values.store
      ensures Valid()
      ensures values.store.handles == old(values.store.handles) + [Some(h)]
      ensures values.store.Managed() == old(values.store.Managed()) + {h}
      ensures values.store.lent == old(values.store.lent)
    {
      ghost var before := values.store.handles;
      var _ := values.Insert(h);
      LiveHandlesAppend(before, h);
    }

    /** `declareFunction(_:_:)`.  An existing function of that name is
        returned as it is, and the types must agree.  Otherwise the backend
        adds a function with handle `handle` whose parameters are
        `parameters`; both are inserted, the function first.  The name
        lookup never finds an unnamed function, so an empty name always
        adds a new one and leaves `functionNamed` as it was. */
    method DeclareFunction(name: string, typ: TypeId, handle: ValueRef, parameters: seq<Option<ValueRef>>)
      returns (id: EntityId)
      requires Valid()
      requires name in functionNamed ==> valueTypeOf[functionNamed[name]] == typ
      requires name !in functionNamed ==>
        handle !in values.store.Managed() && handle !in valueTypeOf &&
        NewValues(parameters) && Some(handle) !in parameters
      modifies this, values, values.store
      ensures Valid()
      ensures name != "" ==> FunctionNamed(name) == Some(id) && valueTypeOf[functionNamed[name]] == typ
      ensures name == "" ==> functionNamed == old(functionNamed)
      ensures name in old(functionNamed) ==>
        id == old(FunctionNamed(name)).value &&
        values.store.handles == old(values.store.handles) &&
        functionNamed == old(functionNamed) && valueTypeOf == old(valueTypeOf)
      ensures name !in old(functionNamed) ==>
        id.raw == old(|values.store.handles|) &&
        values.store.handles == old(values.store.handles) + [Some(handle)] + Wrap(Present(parameters)) &&
        values.IdFor(handle) == Some(id) &&
        functionNamed == (if name == "" then old(functionNamed) else old(functionNamed)[name := handle]) &&
        valueTypeOf == old(valueTypeOf)[handle := typ]
      ensures globalNamed == old(globalNamed) && values.store.lent == old(values.store.lent)
    {
      var existing := FunctionNamed(name);
      if existing.Some? {
        return existing.value;
      }
      id := AddFunction(name, typ, handle);
      assert NewValues(parameters);
      RegisterFunctionParameters(parameters);
      assert values.handleToId[handle] == id by {
        assert values.store.handles[id.raw] == Some(handle);
      }
    }

    /** `LLVMAddFunction` and the insertion of its result, the first half of
        the adding branch of `DeclareFunction`. */
    method AddFunction(name: string, typ: TypeId, handle: ValueRef)
      returns (id: EntityId)
      requires Valid() && name !in functionNamed
      requires handle !in values.store.Managed() && handle !in valueTypeOf
      modifies this, values, values.store
      ensures Valid()
      ensures id.raw == old(|values.store.handles|)
      ensures values.store.handles == old(values.store.handles) + [Some(handle)]
      ensures values.store.Managed() == old(values.store.Managed()) + {handle}
      ensures functionNamed == if name == "" then old(functionNamed) else old(functionNamed)[name := handle]
      ensures valueTypeOf == old(valueTypeOf)[handle := typ]
      ensures values.handleToId == old(values.handleToId)[handle := id]
      ensures globalNamed == old(globalNamed) && values.store.lent == old(values.store.lent)
    {
      ghost var before := values.store.handles;
      id := values.Insert(handle);
      LiveHandlesAppend(before, handle);
      if name != "" {
        functionNamed := functionNamed[name := handle];
      }
      valueTypeOf := valueTypeOf[handle := typ];
    }

    /** `addGlobalVariable(_:_:inAddressSpace:)`: always a new global with a
        new identity, even when the name is taken.  `assignedName` is the
        name the backend gives it: none for an empty or missing name, the
        requested name when it is free, and otherwise a fresh one. */
    method AddGlobalVariable(name: Option<string>, typ: TypeId, handle: ValueRef, assignedName: Option<string>)
      returns (id: EntityId)
      requires Valid() && handle !in values.store.Managed() && handle !in valueTypeOf
      requires (name.None? || name == Some("")) ==> assignedName.None?
      requires name.Some? && name.value != "" ==> assignedName.Some?
      requires name.Some? && name.value != "" && name.value !in globalNamed ==> assignedName == name
      requires assignedName.Some? ==> assignedName.value != "" && assignedName.value !in globalNamed
      modifies this, values, values.store
      ensures Valid()
      ensures id.raw == old(|values.store.handles|)
      ensures values.store.handles == old(values.store.handles) + [Some(handle)]
      ensures values.IdFor(handle) == Some(id)
      ensures globalNamed == if assignedName.Some? then old(globalNamed)[assignedName.value := handle] else old(globalNamed)
      ensures valueTypeOf == old(valueTypeOf)[handle := typ]
      ensures functionNamed == old(functionNamed) && values.store.lent == old(values.store.lent)
    {
      id := values.Insert(handle);
      globalNamed := if assignedName.Some? then globalNamed[assignedName.value := handle] else globalNamed;
      valueTypeOf := valueTypeOf[handle := typ];
    }

    /** `declareGlobalVariable(_:_:inAddressSpace:)`: the same lookup-or-add
        rule as `DeclareFunction`, adding through `AddGlobalVariable`. */
    method DeclareGlobalVariable(name: string, typ: TypeId, handle: ValueRef, assignedName: Option<string>)
      returns (id: EntityId)
      requires Valid()
      requires name in globalNamed ==> valueTypeOf[globalNamed[name]] == typ
      requires name !in globalNamed ==>
        handle !in values.store.Managed() && handle !in valueTypeOf &&
        assignedName == (if name == "" then None else Some(name))
      modifies this, values, values.store
      ensures Valid()
      ensures name in old(globalNamed) ==>
        id == old(GlobalNamed(name)).value &&
        values.store.handles == old(values.store.handles) &&
        globalNamed == old(globalNamed) && valueTypeOf == old(valueTypeOf)
      ensures name !in old(globalNamed) ==>
        id.raw == old(|values.store.handles|) &&
        values.store.handles == old(values.store.handles) + [Some(handle)] &&
        valueTypeOf == old(valueTypeOf)[handle := typ]
      ensures name !in old(globalNamed) && name != "" ==>
        globalNamed == old(globalNamed)[name := handle] && GlobalNamed(name) == Some(id)
      ensures name !in old(globalNamed) && name == "" ==> globalNamed == old(globalNamed)
      ensures functionNamed == old(functionNamed) && values.store.lent == old(values.store.lent)
    {
      var existing := GlobalNamed(name);
      if existing.Some? {
        return existing.value;
      }
      id := AddGlobalVariable(Some(name), typ, handle, assignedName);
    }

    /** `insertCall(_:typed:on:at:)`: the arity check is a precondition for a
        non-variadic function type (and none for any other type), the callee
        and the arguments must have identities, and the backend's new call
        instruction `call` gets a new identity. */
    method InsertCall(callee: EntityId, calleeType: CalleeType, arguments: seq<EntityId>, call: ValueRef)
      returns (id: EntityId)
      requires Valid() && values.Contains(callee)
      requires forall k | 0 <= k < |arguments| :: values.Contains(arguments[k])
      requires calleeType.FunctionType? && !calleeType.isVarArg ==> calleeType.parameterCount == |arguments|
      requires |arguments| <= 0xFFFF_FFFF
      requires call !in values.store.Managed() && call !in valueTypeOf
      modifies values, values.store
      ensures Valid()
      ensures id.raw == old(|values.store.handles|)
      ensures values.store.handles == old(values.store.handles) + [Some(call)]
      ensures values.IdFor(call) == Some(id)
      ensures values.store.lent == old(values.store.lent)
    {
      id := values.Insert(call);
    }
  }

  // ---------------------------------------------------------------------
  // Attribute slots

  /** `LLVMAttributeReturnIndex` and `LLVMAttributeFunctionIndex`. */
  const AttributeReturnIndex: int := 0
  const AttributeFunctionIndex: int := -1

  const UInt32Max: int := 0xFFFF_FFFF

  /** `UInt32(bitPattern: Int32(x))`: the same 32 bits read as unsigned. */
  function BitPattern(x: int): (r: nat)
    requires -0x8000_0000 <= x < 0x8000_0000
    ensures r <= UInt32Max
    ensures (r - x) % 0x1_0000_0000 == 0
  {
    if x < 0 then x + 0x1_0000_0000 else x
  }

  /** What an attribute is attached to. */
  datatype AttributeTarget = OnFunction | OnReturn | OnParameter(index: nat)

  /** The slot the `add*Attribute` methods pass to the backend.  `None` is
      the trap of `UInt32(index + 1)` for an index without a 32-bit
      successor. */
  function AddSlot(t: AttributeTarget): (r: Option<nat>)
    ensures t == OnReturn ==> r == Some(0)
    ensures t == OnFunction ==> r == Some(UInt32Max)
    ensures t.OnParameter? ==> (r.Some? <==> t.index + 1 <= UInt32Max)
    ensures t.OnParameter? && r.Some? ==> r.value == t.index + 1 && r.value != 0
  {
    match t
    case OnFunction => Some(BitPattern(AttributeFunctionIndex))
    case OnReturn => Some(AttributeReturnIndex)
    case OnParameter(index) => if index + 1 <= UInt32Max then Some(index + 1) else None
  }

  /** The slot the `remove*Attribute` methods pass to the backend; the
      return value's is written as the literal 0. */
  function RemoveSlot(t: AttributeTarget): (r: Option<nat>)
    ensures t == OnReturn ==> r == Some(0)
  {
    match t
    case OnFunction => Some(BitPattern(AttributeFunctionIndex))
    case OnReturn => Some(0)
    case OnParameter(index) => if index + 1 <= UInt32Max then Some(index + 1) else None
  }

  /** Adding and removing an attribute address the same slot. */
  lemma AddRemoveSameSlot(t: AttributeTarget)
    ensures AddSlot(t) == RemoveSlot(t)
  {
  }

  /** Distinct targets of one function never share a slot: no parameter
      uses slot 0 of the return value, and no parameter below the last
      32-bit index reaches the function's slot. */
  lemma SlotsDistinct(t: AttributeTarget, u: AttributeTarget)
    requires t.OnParameter? ==> t.index + 1 < UInt32Max
    requires u.OnParameter? ==> u.index + 1 < UInt32Max
    requires AddSlot(t) == AddSlot(u)
    ensures t == u
  {
  }

  /** The encoding leaves no room above: a parameter at index 2^32 - 2 would
      share the function's slot. */
  lemma LastParameterMeetsFunctionSlot()
    ensures AddSlot(OnParameter(UInt32Max - 1)) == AddSlot(OnFunction)
  {
  }

  // ---------------------------------------------------------------------
  // Running the default passes

  /** `OptimizationLevel`. */
  datatype OptimizationLevel = none | less | default | aggressive

  /** The level passed to the shim for each optimisation level. */
  function ShimLevel(o: OptimizationLevel): (l: Passes.PassLevel)
    ensures l != Passes.Os && l != Passes.Oz
    ensures o == none <==> l == Passes.O0
  {
    match o
    case none => Passes.O0
    case less => Passes.O1
    case default => Passes.O2
    case aggressive => Passes.O3
  }

  /** No two optimisation levels share a shim level. */
  lemma ShimLevelInjective(o: OptimizationLevel, p: OptimizationLevel)
    requires ShimLevel(o) == ShimLevel(p)
    ensures o == p
  {
  }

  /** `runDefaultModulePasses(optimization:for:)`, with its defaults: no
      optimisation and no machine.  A given machine is forwarded, otherwise
      the null machine; the level is always one of the six tags, so the
      shim's assertion is never reached and the pipeline always runs. */
  method RunDefaultModulePasses(self: Passes.ModuleRef, optimization: OptimizationLevel := none,
                                machine: Option<nat> := None)
    returns (trace: seq<Passes.PassEvent>)
    ensures var t := if machine.Some? then Passes.MachineRef(machine.value) else Passes.NullMachine;
      |trace| >= 11 && trace[..10] == Passes.Setup(t)
    ensures trace[|trace| - 1] == Passes.RunPipeline(self, Passes.ModuleManager)
    ensures Passes.AssertionFailure !in trace
    ensures Passes.BuildO0DefaultPipeline(Passes.LlvmO0) in trace <==> optimization == none
  {
    var t := if machine.Some? then Passes.MachineRef(machine.value) else Passes.NullMachine;
    var level := Passes.Ordinal(ShimLevel(optimization));
    trace := Passes.RunDefaultModulePasses(self, t, level);
  }
}

/** The identity conversions (`SwiftyLLVM/Module.swift`, the `LLVMIdentity`
    extensions): an identity is a raw index tagged with the kind of entity it
    names.  Each family (types, values, attributes) has an erased kind
    (`AnyType`, `AnyValue`, `AnyAttribute`) and typed kinds (`IntegerType`,
    `Function`, `Attribute<Parameter>`, ...). */
module Identities {

  datatype Family = TypeFamily | ValueFamily | AttributeFamily

  /** The erased kind of a family, or one of its typed kinds, by name. */
  datatype Kind = Erased | Typed(name: string)

  datatype Identity = Identity(family: Family, kind: Kind, raw: nat)

  /** `init(_:)` to the family's erased identity. */
  function Erase(id: Identity): (r: Identity)
    ensures r.raw == id.raw && r.family == id.family && r.kind == Erased
  {
    Identity(id.family, Erased, id.raw)
  }

  /** `init(_:)` from an erased identity to a typed one of the same family
      (`uncheckedFrom:`: nothing is checked). */
  function Narrow(id: Identity, name: string): (r: Identity)
    requires id.kind == Erased
    ensures r.raw == id.raw && r.family == id.family && r.kind == Typed(name)
  {
    Identity(id.family, Typed(name), id.raw)
  }

  /** Erasing a typed identity and narrowing it back to its kind gives it
      back. */
  lemma NarrowErase(id: Identity)
    requires id.kind.Typed?
    ensures Narrow(Erase(id), id.kind.name) == id
  {
  }

  /** Narrowing and then erasing gives the erased identity back. */
  lemma EraseNarrow(id: Identity, name: string)
    requires id.kind == Erased
    ensures Erase(Narrow(id, name)) == id
  {
  }

  /** Two identities of one family name the same entity exactly when their
      erased forms agree, which is when their raw values agree. */
  lemma EraseKeepsEntity(a: Identity, b: Identity)
    requires a.family == b.family
    ensures Erase(a) == Erase(b) <==> a.raw == b.raw
  {
  }
}
