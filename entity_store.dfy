/** The insert-based `EntityStore` (`Utils/EntityStore.swift`): a growing
    list of optional handles, whose entities can be removed, or lent out for
    the duration of a projection and then restored to the same slot. */
module EntityStores {
  import opened Wrappers
  import opened Entities

  class EntityStore<H(==)> {
    /** The ever-growing handle list; an entity's id is its index. */
    var handles: Slots<H>
    /** The entities currently extracted and not yet restored, by index. */
    ghost var lent: map<nat, H>
    /** The handles handed to `Entity.destroy`, in order. */
    ghost var destroyed: seq<H>

    /** Every lent-out slot is in range and empty, and no handle is managed
        twice: not in two slots, not both in a slot and lent out, and not
        lent out for two ids. */
    ghost predicate Valid()
      reads this
    {
      && DistinctHandles(handles)
      && (forall i | i in lent :: i < |handles| && handles[i].None? && lent[i] !in LiveHandles(handles))
      && (forall i, j | i in lent && j in lent && i != j :: lent[i] != lent[j])
    }

    /** The handles the store is responsible for, held or lent out. */
    ghost function Managed(): set<H>
      reads this
    {
      LiveHandles(handles) + lent.Values
    }

    /** `init()`: an empty store. */
    constructor()
      ensures Valid()
      ensures handles == [] && lent == map[] && destroyed == []
    {
      handles := [];
      lent := map[];
      destroyed := [];
    }

    /** `contains(_:)`.  An entity lent out to a projection is not
        contained. */
    function Contains(id: EntityId): (r: bool)
      reads this
      ensures r <==> Occupied(handles, id)
      ensures Valid() && id.raw in lent ==> !r
    {
      id.raw < |handles| && handles[id.raw] != None
    }

    /** `handle(for:)`: the handle of a contained entity, `None` otherwise. */
    function HandleFor(id: EntityId): (r: Option<H>)
      reads this
      ensures r.None? <==> !Contains(id)
      ensures r.Some? ==> handles[id.raw] == r && r.value in LiveHandles(handles)
    {
      if Contains(id) then handles[id.raw] else None
    }

    /** `insert(_:)`: the new id is the former length of the list, so ids are
        handed out in order and never reused; every earlier slot keeps its
        entry.  The handle must not already be managed by the store. */
    method Insert(h: H) returns (id: EntityId)
      requires Valid() && h !in Managed()
      modifies this
      ensures Valid()
      ensures id.raw == old(|handles|)
      ensures handles == old(handles) + [Some(h)]
      ensures Contains(id) && HandleFor(id) == Some(h)
      ensures lent == old(lent) && destroyed == old(destroyed)
    {
      id := EntityId(|handles|);
      handles := handles + [Some(h)];
    }

    /** `remove(_:)`: destroys a contained entity and empties its slot; the
        list keeps its length and every other slot.  Fatal for an entity
        that is not contained. */
    method Remove(id: EntityId)
      requires Valid() && Contains(id)
      modifies this
      ensures Valid()
      ensures handles == old(handles)[id.raw := None]
      ensures !Contains(id)
      ensures destroyed == old(destroyed) + [old(handles[id.raw].value)]
      ensures lent == old(lent)
    {
      var h := HandleFor(id).value;
      destroyed := destroyed + [h];
      handles := handles[id.raw := None];
    }

    /** `unsafeExtract(_:)`: empties the slot of a contained entity and hands
        its handle to the caller, who now holds it on loan.  Fatal for an
        entity that is not contained. */
    method UnsafeExtract(id: EntityId) returns (h: H)
      requires Valid() && Contains(id)
      modifies this
      ensures Valid()
      ensures h == old(handles[id.raw].value)
      ensures handles == old(handles)[id.raw := None]
      ensures lent == old(lent)[id.raw := h]
      ensures destroyed == old(destroyed)
    {
      h := HandleFor(id).value;
      handles := handles[id.raw := None];
      lent := lent[id.raw := h];
    }

    /** `unsafeRestore(_:_:)`: refills the slot of an entity extracted and not
        yet restored.  The store checks only that the slot is empty, which
        every extracted entity's slot is; a handle other than the one
        extracted must not be managed by the store. */
    method UnsafeRestore(id: EntityId, h: H)
      requires Valid() && id.raw in lent && (h == lent[id.raw] || h !in Managed())
      modifies this
      ensures Valid()
      ensures handles == old(handles)[id.raw := Some(h)]
      ensures Contains(id) && HandleFor(id) == Some(h)
      ensures lent == old(lent) - {id.raw}
      ensures destroyed == old(destroyed)
    {
      if HandleFor(id).Some? {
        assert false;
      }
      handles := handles[id.raw := Some(h)];
      lent := lent - {id.raw};
    }

    /** `projecting(_:_:)` with a witness that sees only the entity.  The
        witness runs on the extracted handle while the slot is empty
        (`during`); the same handle is restored whether the witness returns
        or throws, and the witness's outcome is passed on unchanged. */
    method Projecting<R>(id: EntityId, action: H -> Completion<R>) returns (c: Completion<R>, ghost during: Slots<H>)
      requires Valid() && Contains(id)
      modifies this
      ensures Valid()
      ensures c == action(old(handles[id.raw].value))
      ensures during == BodyEntry(old(handles), id)
      ensures handles == old(handles)
      ensures lent == old(lent) && destroyed == old(destroyed)
    {
      var h := UnsafeExtract(id);
      during := handles;
      c := action(h);
      UnsafeRestore(id, h);
      assert handles == old(handles);
    }

    /** `projecting(_:_:)` with a witness that is also handed the store.  The
        witness performs `body` on the store while the entity is lent out;
        the resulting store is the one `Bracket` describes, and `body` must
        not stop the process.  The witness returns `result` or throws. */
    method ProjectingWithStore<R>(id: EntityId, body: Script<H>, result: R) returns (c: Completion<R>)
      requires Valid() && Bracket(Store(handles, lent), id, body, true).Some?
      modifies this
      decreases body, |body.ops| + 1
      ensures Valid()
      ensures Store(handles, lent) == old(Bracket(Store(handles, lent), id, body, true).value)
      ensures c == if body.throws then Threw else Returned(result)
      ensures |destroyed| >= old(|destroyed|)
    {
      ghost var target := Bracket(Store(handles, lent), id, body, true).value;
      var h := UnsafeExtract(id);
      Run(body);
      UnsafeRestore(id, h);
      assert Store(handles, lent) == target;
      c := if body.throws then Threw else Returned(result);
    }

    /** The subscript's `_read` and `_modify` accessors: both yield a view of
        the extracted handle while the slot is empty, and restore the same
        handle afterwards, also when the accessing code throws. */
    method Subscript(id: EntityId) returns (h: H, ghost during: Slots<H>)
      requires Valid() && Contains(id)
      modifies this
      ensures Valid()
      ensures Some(h) == old(HandleFor(id))
      ensures during == BodyEntry(old(handles), id)
      ensures handles == old(handles)
      ensures lent == old(lent) && destroyed == old(destroyed)
    {
      h := UnsafeExtract(id);
      during := handles;
      UnsafeRestore(id, h);
      assert handles == old(handles);
    }

    /** Performs the operations of a store-taking witness, in order. */
    method Run(w: Script<H>)
      requires Valid() && RunOps(Store(handles, lent), w, 0, true).Some?
      modifies this
      decreases w, |w.ops|
      ensures Valid()
      ensures Store(handles, lent) == old(RunOps(Store(handles, lent), w, 0, true).value)
      ensures |destroyed| >= old(|destroyed|)
    {
      ghost var target := RunOps(Store(handles, lent), w, 0, true);
      var i := 0;
      while i < |w.ops|
        invariant 0 <= i <= |w.ops|
        invariant Valid() && |destroyed| >= old(|destroyed|)
        invariant RunOps(Store(handles, lent), w, i, true) == target
      {
        assert w.ops[i] in w.ops;
        match w.ops[i] {
          case Add(h) =>
            var _ := Insert(h);
          case Drop(id) =>
            Remove(id);
          case Project(id, body) =>
            var _ := ProjectingWithStore(id, body, ());
          case Extract(id) =>
            var _ := UnsafeExtract(id);
          case Restore(id, h) =>
            UnsafeRestore(id, h);
        }
        i := i + 1;
      }
    }
  }
}
