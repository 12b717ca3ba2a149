/**
  `PyObjectOwner` (Sources/PyObjectHelper.h): an RAII holder of one object
  pointer. Every special member changes the held object's reference count by
  a fixed amount; the functions below return the owner together with the
  counts after the call.

  The second half of the module puts owners into a `World` (all live owners
  and the counts) and proves that each operation keeps the accounting
  invariant "every owner's reference is included in its object's count".
*/
module ObjectOwner {
  import opened Base

  /** The single field `pyObject`. */
  datatype Owner = Owner(ptr: Ptr)

  /** An owner after an operation, with the reference counts after it. */
  datatype Step = Step(owner: Owner, counts: Counts)

  /** The pointer an owner holds is null or refers to a live object. */
  predicate Holds(c: Counts, p: Ptr)
  {
    p.Obj? ==> Live(c, p.id)
  }

  /** Constructor `PyObjectOwner(obj, incRef)`: adopts `p`, adding a
      reference only when asked to and when `p` is not null. */
  function Construct(p: Ptr, incRef: bool, c: Counts): (r: Step)
    requires Holds(c, p)
    ensures r.owner.ptr == p
    ensures !incRef ==> r.counts == c
    ensures forall x :: RefCount(r.counts, x) == RefCount(c, x) + (if incRef && p == Obj(x) then 1 else 0)
  {
    Step(Owner(p), if incRef then Acquire(p, c) else c)
  }

  /** Destructor: releases the held reference, if any. */
  function Destroy(o: Owner, c: Counts): (r: Counts)
    requires Holds(c, o.ptr)
    ensures o.ptr == Null ==> r == c
    ensures forall x :: RefCount(r, x) == RefCount(c, x) - (if o.ptr == Obj(x) then 1 else 0)
  {
    Release(o.ptr, c)
  }

  /** Copy constructor: shares the source's object and adds a reference. */
  function Copy(src: Owner, c: Counts): (r: Step)
    requires Holds(c, src.ptr)
    ensures r.owner == src
    ensures forall x :: RefCount(r.counts, x) == RefCount(c, x) + (if src.ptr == Obj(x) then 1 else 0)
  {
    Step(src, Acquire(src.ptr, c))
  }

  /** Move constructor: the new owner takes the pointer, the source is left
      null, and no count changes (so no counts are involved). */
  function Move(src: Owner): (r: (Owner, Owner))
    ensures r.0.ptr == src.ptr && r.1.ptr == Null
  {
    (Owner(src.ptr), Owner(Null))
  }

  /** `after` is `before` with the reference to `released` given up and one to
      `taken` acquired (nothing changes when both are the same object). */
  ghost predicate Exchanged(before: Counts, after: Counts, released: Ptr, taken: Ptr)
  {
    forall x :: RefCount(after, x) ==
                  RefCount(before, x) - (if released == Obj(x) then 1 else 0) + (if taken == Obj(x) then 1 else 0)
  }

  /** Result of the assignment operator: done, or the object was deallocated
      by the release and then had its count raised (use after free). */
  datatype Assigned = Done(step: Step) | UseAfterFree

  /** `operator=` as written: release the old object first, then take the
      source's pointer and add a reference to it. */
  function Assign(dst: Owner, src: Owner, c: Counts): (r: Assigned)
    requires Holds(c, dst.ptr) && Holds(c, src.ptr)
    ensures r.UseAfterFree? <==> src.ptr.Obj? && dst.ptr == src.ptr && RefCount(c, src.ptr.id) == 1
    ensures r.Done? ==> r.step.owner == src
    ensures r.Done? ==> Exchanged(c, r.step.counts, dst.ptr, src.ptr)
  {
    var released := Release(dst.ptr, c);
    if src.ptr.Obj? && !Live(released, src.ptr.id) then UseAfterFree
    else Done(Step(src, Acquire(src.ptr, released)))
  }

  /** `operator=` with the reference taken before the old one is released:
      defined for every pair of owners, self-assignment included. */
  function AssignSafe(dst: Owner, src: Owner, c: Counts): (r: Step)
    requires Holds(c, dst.ptr) && Holds(c, src.ptr)
    ensures r.owner == src
    ensures Exchanged(c, r.counts, dst.ptr, src.ptr)
    ensures dst == src ==> r.counts == c
  {
    var acquired := Acquire(src.ptr, c);
    var r := Step(src, Release(dst.ptr, acquired));
    assert dst == src ==> r.counts.Keys == c.Keys;
    r
  }

  /** Wherever the operator as written does not free the object early, it
      has the same effect as the corrected one. */
  lemma AssignAgrees(dst: Owner, src: Owner, c: Counts)
    requires Holds(c, dst.ptr) && Holds(c, src.ptr)
    ensures var r := Assign(dst, src, c);
            r.Done? ==> r.step.owner == AssignSafe(dst, src, c).owner
    ensures var r := Assign(dst, src, c);
            r.Done? ==> forall x :: RefCount(r.step.counts, x) == RefCount(AssignSafe(dst, src, c).counts, x)
  {
  }

  /** `isNull`. */
  function IsNull(o: Owner): (r: bool)
    ensures r <==> o.ptr == Null
  {
    o.ptr == Null
  }

  /** An owner is null exactly when destroying it changes no count, and a
      moved-from owner is null. */
  lemma NullOwnerPartners(o: Owner, c: Counts)
    requires Holds(c, o.ptr)
    ensures IsNull(o) <==> Destroy(o, c) == c
    ensures IsNull(Move(o).1)
  {
    if !IsNull(o) {
      assert RefCount(Destroy(o, c), o.ptr.id) != RefCount(c, o.ptr.id);
    }
  }

  /** `returnValue`: the object handed to the caller as a new reference;
      `None` (also with a new reference) when nothing is held. */
  function ReturnValue(o: Owner, c: Counts): (r: (nat, Counts))
    requires Holds(c, o.ptr) && Live(c, NoneId)
    ensures r.0 == (if IsNull(o) then NoneId else o.ptr.id)
    ensures forall x :: RefCount(r.1, x) == RefCount(c, x) + (if x == r.0 then 1 else 0)
  {
    var id := if o.ptr.Obj? then o.ptr.id else NoneId;
    (id, IncRef(c, id))
  }

  /** Self-assignment of the only owner of an object: the release
      deallocates the object before it is referenced again. */
  lemma SelfAssignLastReference(id: nat)
    ensures var c := map[id := 1];
            Assign(Owner(Obj(id)), Owner(Obj(id)), c) == UseAfterFree
  {
  }


  // ---------------------------------------------------------------------
  // Owners in context: every owner's reference is part of the count.

  /** All owners in existence (one slot each) and the reference counts. */
  datatype World = World(owners: seq<Owner>, counts: Counts)

  /** How many owners hold a reference to `id`. */
  function Held(owners: seq<Owner>, id: nat): nat
  {
    multiset(owners)[Owner(Obj(id))]
  }

  /** The accounting invariant: no object has fewer references than owners. */
  ghost predicate Accounted(w: World)
  {
    forall id :: Held(w.owners, id) <= RefCount(w.counts, id)
  }

  lemma OwnedIsLive(w: World, i: nat)
    requires Accounted(w) && i < |w.owners|
    ensures Holds(w.counts, w.owners[i].ptr)
  {
    if w.owners[i].ptr.Obj? {
      assert w.owners[i] in multiset(w.owners);
      assert Held(w.owners, w.owners[i].ptr.id) >= 1;
    }
  }

  lemma HeldUpdate(owners: seq<Owner>, i: nat, o: Owner)
    requires i < |owners|
    ensures multiset(owners[i := o]) == multiset(owners) - multiset{owners[i]} + multiset{o}
  {
    var s := owners[i := o];
    assert owners == owners[..i] + [owners[i]] + owners[i+1..];
    assert s == owners[..i] + [o] + owners[i+1..];
  }

  lemma HeldRemove(owners: seq<Owner>, i: nat)
    requires i < |owners|
    ensures multiset(owners[..i] + owners[i+1..]) == multiset(owners) - multiset{owners[i]}
  {
    assert owners == owners[..i] + [owners[i]] + owners[i+1..];
  }

  /** A new owner in a fresh slot. Without `incRef` it adopts a reference
      its creator already had and no owner accounted for. */
  function NewOwner(w: World, p: Ptr, incRef: bool): (r: World)
    requires Accounted(w) && Holds(w.counts, p)
    requires !incRef && p.Obj? ==> Held(w.owners, p.id) < RefCount(w.counts, p.id)
    ensures r.owners == w.owners + [Owner(p)]
    ensures Accounted(r)
  {
    var step := Construct(p, incRef, w.counts);
    var r := World(w.owners + [step.owner], step.counts);
    assert multiset(r.owners) == multiset(w.owners) + multiset{Owner(p)};
    r
  }

  /** The owner in slot `i` is destroyed and its slot removed. */
  function DropOwner(w: World, i: nat): (r: World)
    requires Accounted(w) && i < |w.owners|
    ensures r.owners == w.owners[..i] + w.owners[i+1..]
    ensures Accounted(r)
  {
    OwnedIsLive(w, i);
    HeldRemove(w.owners, i);
    World(w.owners[..i] + w.owners[i+1..], Destroy(w.owners[i], w.counts))
  }

  /** A copy of slot `i` is constructed in a fresh slot. */
  function CopyOwner(w: World, i: nat): (r: World)
    requires Accounted(w) && i < |w.owners|
    ensures r.owners == w.owners + [w.owners[i]]
    ensures Accounted(r)
  {
    OwnedIsLive(w, i);
    var step := Copy(w.owners[i], w.counts);
    var r := World(w.owners + [step.owner], step.counts);
    assert multiset(r.owners) == multiset(w.owners) + multiset{w.owners[i]};
    r
  }

  /** Slot `i` is moved into a fresh slot and left null; counts are kept. */
  function MoveOwner(w: World, i: nat): (r: World)
    requires Accounted(w) && i < |w.owners|
    ensures r.counts == w.counts
    ensures r.owners == w.owners[i := Owner(Null)] + [w.owners[i]]
    ensures Accounted(r)
  {
    var (moved, emptied) := Move(w.owners[i]);
    HeldUpdate(w.owners, i, emptied);
    var r := World(w.owners[i := emptied] + [moved], w.counts);
    assert multiset(r.owners) == multiset(w.owners[i := emptied]) + multiset{moved};
    r
  }

  /** Slot `i` is assigned from slot `j` with the operator as written. */
  function AssignOwner(w: World, i: nat, j: nat): (r: Option<World>)
    requires Accounted(w) && i < |w.owners| && j < |w.owners|
    ensures r.None? <==> i == j && w.owners[i].ptr.Obj? && RefCount(w.counts, w.owners[i].ptr.id) == 1
    ensures r.Some? ==> r.value.owners == w.owners[i := w.owners[j]] && Accounted(r.value)
  {
    OwnedIsLive(w, i);
    OwnedIsLive(w, j);
    HeldUpdate(w.owners, i, w.owners[j]);
    if i != j && w.owners[i].ptr.Obj? && w.owners[i] == w.owners[j] then
      HeldTwice(w.owners, i, j);
      AssignResult(w, i, j)
    else
      AssignResult(w, i, j)
  }

  /** Two slots holding the same object count twice. */
  lemma HeldTwice(owners: seq<Owner>, i: nat, j: nat)
    requires i < |owners| && j < |owners| && i != j
    requires owners[i].ptr.Obj? && owners[i] == owners[j]
    ensures Held(owners, owners[i].ptr.id) >= 2
  {
    HeldRemove(owners, i);
    var rest := owners[..i] + owners[i+1..];
    assert owners[j] in rest by {
      if j < i { assert rest[j] == owners[j]; } else { assert rest[j - 1] == owners[j]; }
    }
    assert multiset(rest)[owners[i]] >= 1;
  }

  function AssignResult(w: World, i: nat, j: nat): (r: Option<World>)
    requires Accounted(w) && i < |w.owners| && j < |w.owners|
    requires Holds(w.counts, w.owners[i].ptr) && Holds(w.counts, w.owners[j].ptr)
  {
    match Assign(w.owners[i], w.owners[j], w.counts)
    case UseAfterFree => None
    case Done(step) => Some(World(w.owners[i := step.owner], step.counts))
  }

  /** Slot `i` is assigned from slot `j` with the corrected operator. */
  function AssignOwnerSafe(w: World, i: nat, j: nat): (r: World)
    requires Accounted(w) && i < |w.owners| && j < |w.owners|
    ensures r.owners == w.owners[i := w.owners[j]]
    ensures Accounted(r)
  {
    OwnedIsLive(w, i);
    OwnedIsLive(w, j);
    HeldUpdate(w.owners, i, w.owners[j]);
    var step := AssignSafe(w.owners[i], w.owners[j], w.counts);
    World(w.owners[i := step.owner], step.counts)
  }

  /** `returnValue` on slot `i`: the caller receives a new reference that no
      owner accounts for, so the invariant is kept with room to spare. */
  function ReturnOwned(w: World, i: nat): (r: (nat, World))
    requires Accounted(w) && i < |w.owners| && Live(w.counts, NoneId)
    ensures r.1.owners == w.owners
    ensures Accounted(r.1)
    ensures Held(r.1.owners, r.0) < RefCount(r.1.counts, r.0)
  {
    OwnedIsLive(w, i);
    var (id, c) := ReturnValue(w.owners[i], w.counts);
    (id, World(w.owners, c))
  }
}
