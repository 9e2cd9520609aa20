/** Identities of stored entities and the value-level meaning of the
    operations a projection witness can perform on the store it is handed
    (`projecting(_:_:)` with a witness of type `(inout Entity, inout Self)`).

    Both entity stores keep an ever-growing list of optional handles: an
    entity's identity is its position in that list, a removed or lent-out
    entity leaves an empty slot, and indices are never reused. */
module Entities {
  import opened Wrappers

  /** `EntityID`: the position of an entity in its store's handle list.  Its
      initialiser is private to the store, so every id a client holds was
      produced by an insertion or a creation. */
  datatype EntityId = EntityId(raw: nat)

  /** The handle list both stores keep. */
  type Slots<H> = seq<Option<H>>

  /** `contains(id)`: the id is in range and its slot holds a handle. */
  predicate Occupied<H>(hs: Slots<H>, id: EntityId) {
    id.raw < |hs| && hs[id.raw].Some?
  }

  /** The handles currently held in the list. */
  function LiveHandles<H>(hs: Slots<H>): set<H> {
    set i | 0 <= i < |hs| && hs[i].Some? :: hs[i].value
  }

  /** No handle is held in two slots. */
  predicate DistinctHandles<H(==)>(hs: Slots<H>) {
    forall i, j | 0 <= i < |hs| && 0 <= j < |hs| && i != j ::
      hs[i].Some? && hs[j].Some? ==> hs[i].value != hs[j].value
  }

  /** What a store-taking witness acts on: the handle list, and the
      handles lent out, by index, to enclosing projections or to
      `unsafeExtract` calls not yet undone by `unsafeRestore`. */
  datatype Store<H> = Store(slots: Slots<H>, lent: map<nat, H>)

  /** The handles the store is responsible for: held in a slot or lent out. */
  function ManagedBy<H>(st: Store<H>): set<H> {
    LiveHandles(st.slots) + st.lent.Values
  }

  /** One step a store-taking witness performs on the store it is handed:
      an insertion (or, for the create-based store, a creation that produced
      `handle`), a removal, a nested projection of another entity with its
      own witness, or a call of the insert-based stores' public
      `unsafeExtract` and `unsafeRestore`.  A subscript access is a
      projection whose witness does not touch the store. */
  datatype Op<H> =
    | Add(handle: H)
    | Drop(id: EntityId)
    | Project(id: EntityId, body: Script<H>)
    | Extract(id: EntityId)
    | Restore(id: EntityId, handle: H)

  /** What a store-taking witness does to the store: the operations it
      performs, in order, and then whether it throws or returns.  A witness
      that throws part-way is the script of the operations before the throw;
      a nested projection that throws has restored its entity before the
      error reaches the enclosing witness, which either propagates it (the
      nested projection is then its last operation) or handles it and goes
      on. */
  datatype Script<H> = Script(ops: seq<Op<H>>, throws: bool)

  /** The list the witness of a projection of `id` starts from: the entity
      has been extracted and its slot is empty. */
  function BodyEntry<H>(hs: Slots<H>, id: EntityId): (r: Slots<H>)
    requires Occupied(hs, id)
    ensures |r| == |hs| && !Occupied(r, id)
    ensures forall k | 0 <= k < |hs| && k != id.raw :: r[k] == hs[k]
  {
    hs[id.raw := None]
  }

  /** The store the witness of a projection of `id` starts from: the slot
      is empty and its handle is lent out under `id`. */
  function Lend<H>(st: Store<H>, id: EntityId): (r: Store<H>)
    requires Occupied(st.slots, id)
    ensures r.slots == BodyEntry(st.slots, id)
    ensures id.raw in r.lent && r.lent[id.raw] == st.slots[id.raw].value
  {
    Store(BodyEntry(st.slots, id), st.lent[id.raw := st.slots[id.raw].value])
  }

  /** The single-step effect of `op`, or `None` when the step stops the
      process or lies outside a documented precondition, which the model
      treats as a stop.  `unique` selects the insert-based stores.
      - Removing, extracting or projecting an entity that is not contained
        is fatal in both stores.
      - Inserting a handle the store already manages, held in a slot or lent
        out, is against the insert-based stores' documented precondition.
      - Restoring is fatal when the slot is filled or out of range, and is
        documented to require an entity extracted and not yet restored; the
        model asks for the handle it held.
      - The create-based store keeps `extract` and `restore` private to its
        file, so no witness of it can call them. */
  function Step<H(==)>(st: Store<H>, op: Op<H>, unique: bool): (r: Option<Store<H>>)
    decreases op, 0
    ensures r.Some? ==> |r.value.slots| >= |st.slots|
  {
    match op
    case Add(h) =>
      if unique && h in ManagedBy(st) then None
      else Some(Store(st.slots + [Some(h)], st.lent))
    case Drop(id) =>
      if Occupied(st.slots, id) then Some(Store(st.slots[id.raw := None], st.lent)) else None
    case Project(id, body) =>
      Bracket(st, id, body, unique)
    case Extract(id) =>
      if unique && Occupied(st.slots, id) then Some(Lend(st, id)) else None
    case Restore(id, h) =>
      if unique && id.raw < |st.slots| && st.slots[id.raw].None? && id.raw in st.lent && st.lent[id.raw] == h
      then Some(Store(st.slots[id.raw := Some(h)], st.lent - {id.raw}))
      else None
  }

  /** The effect of the operations `w.ops[n..]`, run in order. */
  function RunOps<H(==)>(st: Store<H>, w: Script<H>, n: nat, unique: bool): (r: Option<Store<H>>)
    requires n <= |w.ops|
    decreases w, |w.ops| - n
    ensures r.Some? ==> |r.value.slots| >= |st.slots|
  {
    if n == |w.ops| then Some(st)
    else
      assert w.ops[n] in w.ops;
      match Step(st, w.ops[n], unique)
      case None => None
      case Some(next) => RunOps(next, w, n + 1, unique)
  }

  /** The projection bracket shared by both stores: extract the entity of
      `id` (fatal when it is not contained), run the witness with that
      entity lent out, then put the same handle back: fatal if the slot has
      been filled in the meantime, and, in the insert-based stores, against
      `unsafeRestore`'s documented precondition unless the entity is still
      lent out.  The restore runs whether the witness returns or throws, so
      `w.throws` plays no part in the resulting store. */
  function Bracket<H(==)>(st: Store<H>, id: EntityId, w: Script<H>, unique: bool): (r: Option<Store<H>>)
    decreases w, |w.ops| + 1
    ensures r.Some? ==> |r.value.slots| >= |st.slots|
    ensures r.Some? ==> Occupied(st.slots, id) && r.value.slots[id.raw] == st.slots[id.raw]
  {
    if !Occupied(st.slots, id) then None
    else
      var h := st.slots[id.raw].value;
      match RunOps(Lend(st, id), w, 0, unique)
      case None => None
      case Some(after) =>
        if after.slots[id.raw].Some? then None
        else if unique && !(id.raw in after.lent && after.lent[id.raw] == h) then None
        else Some(Store(after.slots[id.raw := Some(h)], after.lent - {id.raw}))
  }

  /** The ids a script removes, extracts or restores, nested projections
      included. */
  function Touched<H>(w: Script<H>): set<nat>
    decreases w, |w.ops| + 1
  {
    TouchedFrom(w, 0)
  }

  function TouchedFrom<H>(w: Script<H>, n: nat): set<nat>
    requires n <= |w.ops|
    decreases w, |w.ops| - n
  {
    if n == |w.ops| then {}
    else
      assert w.ops[n] in w.ops;
      var here := match w.ops[n]
        case Add(_) => {}
        case Drop(id) => {id.raw}
        case Extract(id) => {id.raw}
        case Restore(id, _) => {id.raw}
        case Project(_, body) => Touched(body);
      here + TouchedFrom(w, n + 1)
  }

  /** The ids a script restores, nested projections included. */
  function Restored<H>(w: Script<H>): set<nat>
    decreases w, |w.ops| + 1
  {
    RestoredFrom(w, 0)
  }

  function RestoredFrom<H>(w: Script<H>, n: nat): set<nat>
    requires n <= |w.ops|
    decreases w, |w.ops| - n
  {
    if n == |w.ops| then {}
    else
      assert w.ops[n] in w.ops;
      var here := match w.ops[n]
        case Restore(id, _) => {id.raw}
        case Project(_, body) => Restored(body)
        case _ => {};
      here + RestoredFrom(w, n + 1)
  }

  /** Indices are not reused: a slot that is empty stays empty, and an
      entity lent out stays lent out with the same handle, unless the
      witness restores that slot itself.  Insertions append, removals and
      extractions empty slots, and a projection refills only the slot it
      emptied. */
  lemma {:induction false} EmptyStaysEmpty<H>(st: Store<H>, w: Script<H>, n: nat, unique: bool, k: nat)
    requires n <= |w.ops|
    requires k < |st.slots| && st.slots[k].None? && k !in RestoredFrom(w, n)
    requires RunOps(st, w, n, unique).Some?
    ensures RunOps(st, w, n, unique).value.slots[k].None?
    ensures k in st.lent ==>
      k in RunOps(st, w, n, unique).value.lent && RunOps(st, w, n, unique).value.lent[k] == st.lent[k]
    decreases w, |w.ops| - n
  {
    if n < |w.ops| {
      assert w.ops[n] in w.ops;
      var next := Step(st, w.ops[n], unique).value;
      match w.ops[n] {
        case Add(_) =>
        case Drop(_) =>
        case Extract(_) =>
        case Restore(_, _) =>
        case Project(id, body) =>
          assert Bracket(st, id, body, unique).Some?;
          assert RunOps(Lend(st, id), body, 0, unique).Some?;
          EmptyStaysEmpty(Lend(st, id), body, 0, unique, k);
      }
      EmptyStaysEmpty(next, w, n + 1, unique, k);
    }
  }

  /** The restore at the end of a projection stops the process only when
      the witness has itself restored the projected entity: otherwise the
      bracket fails only when the entity is not contained or its witness
      fails. */
  lemma RestoreNeverFails<H>(st: Store<H>, id: EntityId, w: Script<H>, unique: bool)
    requires Occupied(st.slots, id) && id.raw !in Restored(w)
    ensures Bracket(st, id, w, unique).Some? <==> RunOps(Lend(st, id), w, 0, unique).Some?
  {
    if RunOps(Lend(st, id), w, 0, unique).Some? {
      EmptyStaysEmpty(Lend(st, id), w, 0, unique, id.raw);
    }
  }

  /** The failing case: a witness that hands the projected entity back with
      `unsafeRestore` stays within that method's documented precondition,
      but the projection's own deferred restore then finds the slot filled,
      which is fatal. */
  lemma RestoringProjectedEntityIsFatal<H>(st: Store<H>, id: EntityId, throws: bool)
    requires Occupied(st.slots, id)
    ensures RunOps(Lend(st, id), Script([Restore(id, st.slots[id.raw].value)], throws), 0, true).Some?
    ensures Bracket(st, id, Script([Restore(id, st.slots[id.raw].value)], throws), true) == None
  {
    var w := Script([Restore(id, st.slots[id.raw].value)], throws);
    var refilled := Step(Lend(st, id), w.ops[0], true).value;
    assert refilled.slots[id.raw].Some?;
    assert RunOps(Lend(st, id), w, 0, true) == RunOps(refilled, w, 1, true);
  }

  /** `unsafeExtract` followed by `unsafeRestore` of the same entity leaves
      the store exactly as it was. */
  lemma ExtractRestoreRoundTrip<H>(st: Store<H>, id: EntityId, throws: bool)
    requires Occupied(st.slots, id) && id.raw !in st.lent
    ensures RunOps(st, Script([Extract(id), Restore(id, st.slots[id.raw].value)], throws), 0, true) == Some(st)
  {
    var h := st.slots[id.raw].value;
    var w := Script([Extract(id), Restore(id, h)], throws);
    var lent := Lend(st, id);
    assert Step(st, w.ops[0], true) == Some(lent);
    assert lent.slots[id.raw := Some(h)] == st.slots;
    assert lent.lent - {id.raw} == st.lent;
    assert Step(lent, w.ops[1], true) == Some(st);
    assert RunOps(st, w, 2, true) == Some(st);
    assert RunOps(lent, w, 1, true) == Some(st);
  }

  /** Frame property: every slot of the original list that the witness does
      not remove, extract or restore, directly or in a nested projection,
      holds what it held before; in particular every other entity is back
      after a projection. */
  lemma {:induction false} RunOpsFrame<H>(st: Store<H>, w: Script<H>, n: nat, unique: bool, k: nat)
    requires n <= |w.ops|
    requires k < |st.slots| && k !in TouchedFrom(w, n)
    requires RunOps(st, w, n, unique).Some?
    ensures RunOps(st, w, n, unique).value.slots[k] == st.slots[k]
    decreases w, |w.ops| - n
  {
    if n < |w.ops| {
      assert w.ops[n] in w.ops;
      var next := Step(st, w.ops[n], unique).value;
      match w.ops[n] {
        case Add(_) =>
        case Drop(_) =>
        case Extract(_) =>
        case Restore(_, _) =>
        case Project(id, body) =>
          assert Bracket(st, id, body, unique).Some?;
          assert RunOps(Lend(st, id), body, 0, unique).Some?;
          if k != id.raw {
            RunOpsFrame(Lend(st, id), body, 0, unique, k);
          }
      }
      RunOpsFrame(next, w, n + 1, unique, k);
    }
  }

  /** A projection whose witness does not touch the store (an entity-only
      witness, a subscript access) leaves the store exactly as it was. */
  lemma BracketWithoutOps<H>(st: Store<H>, id: EntityId, throws: bool, unique: bool)
    requires Occupied(st.slots, id) && id.raw !in st.lent
    ensures Bracket(st, id, Script([], throws), unique) == Some(st)
  {
    assert BodyEntry(st.slots, id)[id.raw := st.slots[id.raw]] == st.slots;
    assert Lend(st, id).lent - {id.raw} == st.lent;
  }

  /** Nested projections of two different entities: inside the inner
      witness neither entity is contained, the other entities are, and once
      the outer projection has finished both are back. */
  lemma NestedProjections<H>(st: Store<H>, id1: EntityId, id2: EntityId, t1: bool, t2: bool, unique: bool)
    requires Occupied(st.slots, id1) && Occupied(st.slots, id2) && id1 != id2
    requires id1.raw !in st.lent && id2.raw !in st.lent
    ensures Occupied(BodyEntry(st.slots, id1), id2)
    ensures !Occupied(BodyEntry(BodyEntry(st.slots, id1), id2), id1)
    ensures !Occupied(BodyEntry(BodyEntry(st.slots, id1), id2), id2)
    ensures forall k | 0 <= k < |st.slots| && k != id1.raw && k != id2.raw ::
      BodyEntry(BodyEntry(st.slots, id1), id2)[k] == st.slots[k]
    ensures Bracket(st, id1, Script([Project(id2, Script([], t2))], t1), unique) == Some(st)
  {
    var h1 := st.slots[id1.raw].value;
    var entry := Lend(st, id1);
    var w := Script([Project(id2, Script([], t2))], t1);
    BracketWithoutOps(entry, id2, t2, unique);
    assert Step(entry, w.ops[0], unique) == Some(entry);
    assert RunOps(entry, w, 1, unique) == Some(entry);
    assert RunOps(entry, w, 0, unique) == Some(entry);
    assert entry.slots[id1.raw := Some(h1)] == st.slots;
    assert entry.lent - {id1.raw} == st.lent;
  }
}
