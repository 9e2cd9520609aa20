/** The create-based `EntityStore` (`SwiftyLLVM/EntityStore.swift`): the
    store itself asks the entity type to create the instance, then appends the
    new handle.  Unlike the insert-based store it does no bounds check before
    reading a slot, and it has no precondition on the handles it stores. */
module LegacyEntityStores {
  import opened Wrappers
  import opened Entities

  class LegacyEntityStore<H(==)> {
    /** The ever-growing handle list; an entity's id is its index. */
    var handles: Slots<H>
    /** The handles handed to `Entity.destroy`, in order. */
    ghost var destroyed: seq<H>

    /** `init()`: an empty store. */
    constructor()
      ensures handles == [] && destroyed == []
    {
      handles := [];
      destroyed := [];
    }

    /** `contains(_:)`. */
    function Contains(id: EntityId): (r: bool)
      reads this
      ensures r <==> Occupied(handles, id)
      ensures r ==> handles[id.raw].value in LiveHandles(handles)
    {
      id.raw < |handles| && handles[id.raw] != None
    }

    /** `create(using: inout)` for entities whose creation may throw.  The id
        is the former length of the list, taken before creation; a creation
        that throws appends nothing.  The context is written back either
        way, since an `inout` argument is written back also when the callee
        throws. */
    method CreateWithMutableThrowingContext<C>(context: C, create: C -> (Option<H>, C))
      returns (c: Completion<EntityId>, context': C)
      modifies this
      ensures context' == create(context).1
      ensures create(context).0.None? ==> c == Threw && handles == old(handles)
      ensures create(context).0.Some? ==>
        c == Returned(EntityId(old(|handles|))) &&
        handles == old(handles) + [create(context).0]
      ensures destroyed == old(destroyed)
    {
      var id := EntityId(|handles|);
      var (handle, after) := create(context);
      context' := after;
      if handle.None? {
        return Threw, context';
      }
      handles := handles + [handle];
      c := Returned(id);
    }

    /** `create(using: inout)` for entities whose creation cannot throw. */
    method CreateWithMutableContext<C>(context: C, create: C -> (H, C))
      returns (id: EntityId, context': C)
      modifies this
      ensures context' == create(context).1
      ensures id.raw == old(|handles|)
      ensures handles == old(handles) + [Some(create(context).0)]
      ensures destroyed == old(destroyed)
    {
      id := EntityId(|handles|);
      var (handle, after) := create(context);
      context' := after;
      handles := handles + [Some(handle)];
    }

    /** `create(using:)` for entities whose creation may throw. */
    method CreateWithThrowingContext<C>(context: C, create: C -> Option<H>)
      returns (c: Completion<EntityId>)
      modifies this
      ensures create(context).None? ==> c == Threw && handles == old(handles)
      ensures create(context).Some? ==>
        c == Returned(EntityId(old(|handles|))) &&
        handles == old(handles) + [create(context)]
      ensures destroyed == old(destroyed)
    {
      var id := EntityId(|handles|);
      var handle := create(context);
      if handle.None? {
        return Threw;
      }
      handles := handles + [handle];
      c := Returned(id);
    }

    /** `create(using:)` for entities whose creation cannot throw. */
    method Create<C>(context: C, create: C -> H) returns (id: EntityId)
      modifies this
      ensures id.raw == old(|handles|)
      ensures handles == old(handles) + [Some(create(context))]
      ensures Contains(id)
      ensures destroyed == old(destroyed)
    {
      id := EntityId(|handles|);
      var handle := create(context);
      handles := handles + [Some(handle)];
    }

    /** `remove(_:)`: destroys the entity and empties its slot.  Reading
        `handles[id.raw]` traps for an id out of range, and an empty slot is
        fatal. */
    method Remove(id: EntityId)
      requires Contains(id)
      modifies this
      ensures handles == old(handles)[id.raw := None]
      ensures !Contains(id)
      ensures destroyed == old(destroyed) + [old(handles[id.raw].value)]
    {
      var h := handles[id.raw].value;
      destroyed := destroyed + [h];
      handles := handles[id.raw := None];
    }

    /** `extract(_:)` (private to the file): empties the slot of a contained
        entity and returns its handle.  Traps out of range, fatal on an empty
        slot. */
    method Extract(id: EntityId) returns (h: H)
      requires Contains(id)
      modifies this
      ensures h == old(handles[id.raw].value)
      ensures handles == old(handles)[id.raw := None]
      ensures destroyed == old(destroyed)
    {
      h := handles[id.raw].value;
      handles := handles[id.raw := None];
    }

    /** `restore(_:_:)` (private to the file): refills an empty slot.  Traps
        out of range, fatal on an occupied slot. */
    method Restore(id: EntityId, h: H)
      requires id.raw < |handles| && handles[id.raw].None?
      modifies this
      ensures handles == old(handles)[id.raw := Some(h)]
      ensures Contains(id)
      ensures destroyed == old(destroyed)
    {
      handles := handles[id.raw := Some(h)];
    }

    /** `projecting(_:_:)` with a witness that sees only the entity: the slot
        is empty while the witness runs (`during`), the same handle is back
        afterwards whether the witness returns or throws, and the witness's
        outcome is passed on. */
    method Projecting<R>(id: EntityId, action: H -> Completion<R>) returns (c: Completion<R>, ghost during: Slots<H>)
      requires Contains(id)
      modifies this
      ensures c == action(old(handles[id.raw].value))
      ensures during == BodyEntry(old(handles), id)
      ensures handles == old(handles)
      ensures destroyed == old(destroyed)
    {
      var h := Extract(id);
      during := handles;
      c := action(h);
      Restore(id, h);
      assert handles == old(handles);
    }

    /** `projecting(_:_:)` with a witness that is also handed the store and
        performs `body` on it; the resulting list is the one `Bracket`
        describes, with no precondition on created handles.  The store keeps
        no record of lent-out entities, so `Bracket` starts from none. */
    method ProjectingWithStore<R>(id: EntityId, body: Script<H>, result: R) returns (c: Completion<R>)
      requires Bracket(Store(handles, map[]), id, body, false).Some?
      modifies this
      decreases body, |body.ops| + 1
      ensures handles == old(Bracket(Store(handles, map[]), id, body, false).value.slots)
      ensures c == if body.throws then Threw else Returned(result)
      ensures |destroyed| >= old(|destroyed|)
    {
      ghost var target := Bracket(Store(handles, map[]), id, body, false).value;
      ghost var lentOut := Lend(Store(handles, map[]), id);
      var h := Extract(id);
      RunOpsIgnoresLent(handles, body, 0, lentOut.lent, map[]);
      Run(body);
      Restore(id, h);
      assert handles == target.slots;
      c := if body.throws then Threw else Returned(result);
    }

    /** Performs the operations of a store-taking witness, in order; each
        insertion is the creation of an entity with the given handle. */
    method Run(w: Script<H>)
      requires RunOps(Store(handles, map[]), w, 0, false).Some?
      modifies this
      decreases w, |w.ops|
      ensures handles == old(RunOps(Store(handles, map[]), w, 0, false).value.slots)
      ensures |destroyed| >= old(|destroyed|)
    {
      ghost var target := RunOps(Store(handles, map[]), w, 0, false).value;
      var i := 0;
      while i < |w.ops|
        invariant 0 <= i <= |w.ops|
        invariant |destroyed| >= old(|destroyed|)
        invariant RunOps(Store(handles, map[]), w, i, false).Some?
        invariant RunOps(Store(handles, map[]), w, i, false).value.slots == target.slots
      {
        assert w.ops[i] in w.ops;
        ghost var next := Step(Store(handles, map[]), w.ops[i], false).value;
        match w.ops[i] {
          case Add(h) =>
            var _ := Create((), (_: ()) => h);
          case Drop(id) =>
            Remove(id);
          case Project(id, body) =>
            var _ := ProjectingWithStore(id, body, ());
        }
        RunOpsIgnoresLent(handles, w, i + 1, next.lent, map[]);
        i := i + 1;
      }
    }
  }

  /** Without the uniqueness precondition the handles lent out play no
      part: whether a witness stops the process, and the list it leaves,
      do not depend on them. */
  lemma {:induction false} RunOpsIgnoresLent<H>(hs: Slots<H>, w: Script<H>, n: nat, lent: map<nat, H>, lent': map<nat, H>)
    requires n <= |w.ops|
    ensures RunOps(Store(hs, lent), w, n, false).Some? == RunOps(Store(hs, lent'), w, n, false).Some?
    ensures RunOps(Store(hs, lent), w, n, false).Some? ==>
      RunOps(Store(hs, lent), w, n, false).value.slots == RunOps(Store(hs, lent'), w, n, false).value.slots
    decreases w, |w.ops| - n
  {
    if n < |w.ops| {
      assert w.ops[n] in w.ops;
      var st, st' := Store(hs, lent), Store(hs, lent');
      match w.ops[n] {
        case Add(_) =>
        case Drop(_) =>
        case Extract(_) =>
        case Restore(_, _) =>
        case Project(id, body) =>
          if Occupied(hs, id) {
            assert Lend(st, id) == Store(BodyEntry(hs, id), Lend(st, id).lent);
            assert Lend(st', id) == Store(BodyEntry(hs, id), Lend(st', id).lent);
            RunOpsIgnoresLent(BodyEntry(hs, id), body, 0, Lend(st, id).lent, Lend(st', id).lent);
          }
          assert Bracket(st, id, body, false).Some? == Bracket(st', id, body, false).Some?;
      }
      var step, step' := Step(st, w.ops[n], false), Step(st', w.ops[n], false);
      assert step.Some? == step'.Some?;
      if step.Some? {
        assert step.value.slots == step'.value.slots;
        RunOpsIgnoresLent(step.value.slots, w, n + 1, step.value.lent, step'.value.lent);
      }
    }
  }
}
