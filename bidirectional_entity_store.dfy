/** `BidirectionalEntityStore` (`Utils/BidirectionalEntityStore.swift`): an
    insert-based entity store together with a dictionary from each contained
    handle back to its id.  Every operation keeps the dictionary exactly
    inverse to the occupied slots; an entity lent out to a projection is in
    neither. */
module BidirectionalEntityStores {
  import opened Wrappers
  import opened Entities
  import opened EntityStores

  /** The dictionary `m` is exactly the inverse of the occupied slots of
      `hs`: each key names a slot holding that key, and each held handle is a
      key naming its own slot. */
  ghost predicate Inverse<H>(hs: Slots<H>, m: map<H, EntityId>) {
    && (forall h | h in m :: Occupied(hs, m[h]) && hs[m[h].raw] == Some(h))
    && (forall i | 0 <= i < |hs| && hs[i].Some? :: hs[i].value in m && m[hs[i].value] == EntityId(i))
  }

  /** `id(for: h) == id` exactly when the slot of `id` holds `h`. */
  lemma InverseLookup<H>(hs: Slots<H>, m: map<H, EntityId>, h: H, id: EntityId)
    requires Inverse(hs, m)
    ensures (h in m && m[h] == id) <==> (Occupied(hs, id) && hs[id.raw] == Some(h))
  {
    if Occupied(hs, id) && hs[id.raw] == Some(h) {
      assert hs[id.raw].value == h;
    }
  }

  /** A list has at most one inverse dictionary, so the dictionary after any
      sequence of operations is determined by the resulting list. */
  lemma InverseUnique<H>(hs: Slots<H>, m1: map<H, EntityId>, m2: map<H, EntityId>)
    requires Inverse(hs, m1) && Inverse(hs, m2)
    ensures m1 == m2
  {
    forall h | h in m1
      ensures h in m2 && m2[h] == m1[h]
    {
      assert hs[m1[h].raw].value == h;
    }
    forall h | h in m2
      ensures h in m1
    {
      assert hs[m2[h].raw].value == h;
    }
  }

  /** An inverse dictionary rules out a handle held in two slots. */
  lemma InverseDistinct<H>(hs: Slots<H>, m: map<H, EntityId>)
    requires Inverse(hs, m)
    ensures DistinctHandles(hs)
  {
  }

  /** Appending a handle not yet held, and mapping it to the new index. */
  lemma MapInverseInsert<H>(hs: Slots<H>, m: map<H, EntityId>, h: H)
    requires Inverse(hs, m) && h !in m
    ensures Inverse(hs + [Some(h)], m[h := EntityId(|hs|)])
  {
    var hs', m' := hs + [Some(h)], m[h := EntityId(|hs|)];
    forall i | 0 <= i < |hs'| && hs'[i].Some?
      ensures hs'[i].value in m' && m'[hs'[i].value] == EntityId(i)
    {
      if i < |hs| {
        assert hs'[i] == hs[i];
      }
    }
  }

  /** Emptying an occupied slot, and dropping its handle's entry. */
  lemma MapInverseClear<H>(hs: Slots<H>, m: map<H, EntityId>, id: EntityId)
    requires Inverse(hs, m) && Occupied(hs, id)
    ensures Inverse(hs[id.raw := None], m - {hs[id.raw].value})
  {
    var h := hs[id.raw].value;
    var hs', m' := hs[id.raw := None], m - {h};
    forall k | k in m'
      ensures Occupied(hs', m'[k]) && hs'[m'[k].raw] == Some(k)
    {
      assert m[k] != id;
    }
  }

  /** Filling an empty slot with a handle not yet held, and mapping it. */
  lemma MapInverseFill<H>(hs: Slots<H>, m: map<H, EntityId>, id: EntityId, h: H)
    requires Inverse(hs, m) && id.raw < |hs| && hs[id.raw].None? && h !in m
    ensures Inverse(hs[id.raw := Some(h)], m[h := id])
  {
    var hs', m' := hs[id.raw := Some(h)], m[h := id];
    forall k | k in m'
      ensures Occupied(hs', m'[k]) && hs'[m'[k].raw] == Some(k)
    {
      if k != h {
        assert m[k] != id;
      }
    }
  }

  class BidirectionalEntityStore<H(==)> {
    /** The underlying insert-based store. */
    const store: EntityStore<H>
    /** `handleToID`: the id of each contained handle. */
    var handleToId: map<H, EntityId>

    ghost predicate Valid()
      reads this, store
    {
      store.Valid() && Inverse(store.handles, handleToId)
    }

    /** `init()`: an empty store. */
    constructor()
      ensures Valid() && fresh(store)
      ensures store.handles == [] && store.lent == map[] && handleToId == map[]
    {
      store := new EntityStore();
      handleToId := map[];
    }

    /** `contains(_:)`, delegated to the underlying store. */
    function Contains(id: EntityId): (r: bool)
      reads this, store
      ensures r <==> Occupied(store.handles, id)
    {
      store.Contains(id)
    }

    /** `contains(handle:)`: a key of the dictionary, that is, a handle held
        in some slot. */
    function ContainsHandle(h: H): (r: bool)
      reads this, store
      ensures Valid() ==> (r <==> h in LiveHandles(store.handles))
    {
      h in handleToId
    }

    /** `id(for:)`: the id whose slot holds `h`, if any. */
    function IdFor(h: H): (r: Option<EntityId>)
      reads this, store
      ensures r.Some? <==> ContainsHandle(h)
      ensures Valid() ==> forall id :: r == Some(id) <==> store.HandleFor(id) == Some(h)
    {
      if h in handleToId then Some(handleToId[h]) else None
    }

    /** `insert(_:)`: appends to the store and maps the handle to its new id.
        The dictionary check is a runtime precondition; the underlying store
        also requires that the handle is not lent out. */
    method Insert(h: H) returns (id: EntityId)
      requires Valid() && h !in store.Managed()
      modifies this, store
      ensures Valid()
      ensures id.raw == old(|store.handles|)
      ensures store.handles == old(store.handles) + [Some(h)]
      ensures handleToId == old(handleToId)[h := id]
      ensures IdFor(h) == Some(id) && Contains(id)
      ensures store.lent == old(store.lent)
    {
      if h in handleToId {
        assert false;
      }
      MapInverseInsert(store.handles, handleToId, h);
      id := store.Insert(h);
      handleToId := handleToId[h := id];
    }

    /** `remove(_:)`: drops the entity's dictionary entry, then removes and
        destroys it; the force-unwrap of its handle traps for an entity that
        is not contained. */
    method Remove(id: EntityId)
      requires Valid() && Contains(id)
      modifies this, store
      ensures Valid()
      ensures store.handles == old(store.handles)[id.raw := None]
      ensures handleToId == old(handleToId) - {old(store.handles[id.raw].value)}
      ensures !Contains(id)
      ensures !ContainsHandle(old(store.handles[id.raw].value))
      ensures IdFor(old(store.handles[id.raw].value)) == None
      ensures store.lent == old(store.lent)
    {
      var h := store.HandleFor(id).value;
      MapInverseClear(store.handles, handleToId, id);
      handleToId := handleToId - {h};
      store.Remove(id);
    }

    /** `unsafeExtract(_:)`: empties the slot and drops the dictionary entry,
        so neither the id nor the handle is contained afterwards. */
    method UnsafeExtract(id: EntityId) returns (h: H)
      requires Valid() && Contains(id)
      modifies this, store
      ensures Valid()
      ensures h == old(store.handles[id.raw].value)
      ensures store.handles == old(store.handles)[id.raw := None]
      ensures handleToId == old(handleToId) - {h}
      ensures !Contains(id) && !ContainsHandle(h)
      ensures store.lent == old(store.lent)[id.raw := h]
    {
      MapInverseClear(store.handles, handleToId, id);
      h := store.UnsafeExtract(id);
      handleToId := handleToId - {h};
    }

    /** `unsafeRestore(_:_:)`: refills the slot of an entity extracted and not
        yet restored with the handle it held, and maps the handle back. */
    method UnsafeRestore(id: EntityId, h: H)
      requires Valid() && id.raw in store.lent && store.lent[id.raw] == h
      modifies this, store
      ensures Valid()
      ensures store.handles == old(store.handles)[id.raw := Some(h)]
      ensures handleToId == old(handleToId)[h := id]
      ensures Contains(id) && IdFor(h) == Some(id)
      ensures store.lent == old(store.lent) - {id.raw}
    {
      MapInverseFill(store.handles, handleToId, id, h);
      store.UnsafeRestore(id, h);
      handleToId := handleToId[h := id];
    }

    /** `projecting(_:_:)` by id with an entity-only witness: while the
        witness runs neither the id nor the handle is contained (`during`,
        `duringMap`); afterwards the slot and the mapping are back, whether
        the witness returns or throws. */
    method Projecting<R>(id: EntityId, action: H -> Completion<R>)
      returns (c: Completion<R>, ghost during: Slots<H>, ghost duringMap: map<H, EntityId>)
      requires Valid() && Contains(id)
      modifies this, store
      ensures Valid()
      ensures c == action(old(store.handles[id.raw].value))
      ensures during == BodyEntry(old(store.handles), id)
      ensures duringMap == old(handleToId) - {old(store.handles[id.raw].value)}
      ensures !Occupied(during, id) && old(store.handles[id.raw].value) !in duringMap
      ensures store.handles == old(store.handles) && handleToId == old(handleToId)
      ensures store.lent == old(store.lent)
    {
      var h := store.HandleFor(id).value;
      handleToId := handleToId - {h};
      duringMap := handleToId;
      c, during := store.Projecting(id, action);
      handleToId := handleToId[h := id];
      assert handleToId == old(handleToId);
    }

    /** `projecting(_:_:)` by id with a witness that is also handed this
        store and performs `body` on it.  The slot is refilled and the
        mapping re-established afterwards, and the dictionary is again the
        inverse of the resulting list, which is the one `Bracket`
        describes. */
    method ProjectingWithStore<R>(id: EntityId, body: Script<H>, result: R) returns (c: Completion<R>)
      requires Valid() && Bracket(Store(store.handles, store.lent), id, body, true).Some?
      modifies this, store
      decreases body, |body.ops| + 1
      ensures Valid()
      ensures Store(store.handles, store.lent) == old(Bracket(Store(store.handles, store.lent), id, body, true).value)
      ensures IdFor(old(store.handles[id.raw].value)) == Some(id)
      ensures c == if body.throws then Threw else Returned(result)
    {
      ghost var target := Bracket(Store(store.handles, store.lent), id, body, true).value;
      var h := UnsafeExtract(id);
      Run(body);
      UnsafeRestore(id, h);
      assert Store(store.handles, store.lent) == target;
      c := if body.throws then Threw else Returned(result);
    }

    /** The id subscript's `_read` and `_modify` accessors: the dictionary
        entry is dropped while the underlying store yields the entity, and
        both are back afterwards, also when the accessing code throws. */
    method Subscript(id: EntityId) returns (h: H, ghost during: Slots<H>, ghost duringMap: map<H, EntityId>)
      requires Valid() && Contains(id)
      modifies this, store
      ensures Valid()
      ensures Some(h) == old(store.HandleFor(id))
      ensures during == BodyEntry(old(store.handles), id)
      ensures duringMap == old(handleToId) - {h}
      ensures store.handles == old(store.handles) && handleToId == old(handleToId)
      ensures store.lent == old(store.lent)
    {
      var handle := store.HandleFor(id).value;
      handleToId := handleToId - {handle};
      duringMap := handleToId;
      h, during := store.Subscript(id);
      handleToId := handleToId[handle := id];
      assert handleToId == old(handleToId);
    }

    /** `projecting(handle:_:)` with an entity-only witness: resolves the
        handle through `id(for:)`, fatal when it is not contained. */
    method ProjectingByHandle<R>(h: H, action: H -> Completion<R>) returns (c: Completion<R>)
      requires Valid() && ContainsHandle(h)
      modifies this, store
      ensures Valid()
      ensures c == action(h)
      ensures store.handles == old(store.handles) && handleToId == old(handleToId)
      ensures store.lent == old(store.lent)
    {
      var id := IdFor(h).value;
      ghost var during, duringMap;
      c, during, duringMap := Projecting(id, action);
    }

    /** `projecting(handle:_:)` with a store-taking witness. */
    method ProjectingWithStoreByHandle<R>(h: H, body: Script<H>, result: R) returns (c: Completion<R>)
      requires Valid() && ContainsHandle(h)
      requires Bracket(Store(store.handles, store.lent), handleToId[h], body, true).Some?
      modifies this, store
      ensures Valid()
      ensures Store(store.handles, store.lent) ==
        old(Bracket(Store(store.handles, store.lent), handleToId[h], body, true).value)
      ensures IdFor(h) == old(IdFor(h))
      ensures c == if body.throws then Threw else Returned(result)
    {
      var id := IdFor(h).value;
      c := ProjectingWithStore(id, body, result);
    }

    /** The handle subscript's `_read` and `_modify` accessors: unlike the id
        subscript they keep the dictionary entry while the underlying store
        yields the entity, so during the access the handle is still listed
        although its slot is empty (`during`). */
    method SubscriptByHandle(h: H) returns (view: H, ghost during: Slots<H>, ghost duringMap: map<H, EntityId>)
      requires Valid() && ContainsHandle(h)
      modifies this, store
      ensures Valid()
      ensures view == h
      ensures during == BodyEntry(old(store.handles), old(handleToId[h]))
      ensures duringMap == old(handleToId) && h in duringMap
      ensures !Occupied(during, duringMap[h])
      ensures store.handles == old(store.handles) && handleToId == old(handleToId)
      ensures store.lent == old(store.lent)
    {
      var id := IdFor(h).value;
      duringMap := handleToId;
      view, during := store.Subscript(id);
    }

    /** Performs the operations of a store-taking witness on this store. */
    method Run(w: Script<H>)
      requires Valid() && RunOps(Store(store.handles, store.lent), w, 0, true).Some?
      modifies this, store
      decreases w, |w.ops|
      ensures Valid()
      ensures Store(store.handles, store.lent) == old(RunOps(Store(store.handles, store.lent), w, 0, true).value)
    {
      ghost var target := RunOps(Store(store.handles, store.lent), w, 0, true);
      var i := 0;
      while i < |w.ops|
        invariant 0 <= i <= |w.ops|
        invariant Valid()
        invariant RunOps(Store(store.handles, store.lent), w, i, true) == target
      {
        assert w.ops[i] in w.ops;
        match w.ops[i] {
          case Add(h) =>
            var _ := Insert(h);
          case Drop(id) =>
            Remove(id);
          case Project(id, body) =>
            var _ := ProjectingWithStore(id, body, ());
          case Extract(id) =>
            var _ := UnsafeExtract(id);
          case Restore(id, h) =>
            UnsafeRestore(id, h);
        }
        i := i + 1;
      }
    }
  }

  /** During a handle-subscript access the dictionary is not the inverse of
      the list: the accessed handle is still a key although its slot is
      empty.  Nothing can observe this, since the access holds the store
      exclusively. */
  lemma HandleSubscriptBreaksInverseDuringAccess<H>(hs: Slots<H>, m: map<H, EntityId>, h: H)
    requires Inverse(hs, m) && h in m
    ensures !Inverse(BodyEntry(hs, m[h]), m)
  {
    var during := BodyEntry(hs, m[h]);
    assert !Occupied(during, m[h]);
  }
}
