/**
  Vocabulary shared by every part of the model: optional values, object
  pointers of the scripting runtime and the runtime's reference counts.
*/
module Base {

  /** The conventional Some/None datatype, used where the source returns a
      possibly null pointer or a value that may be absent. */
  datatype Option<+T> = None | Some(value: T)

  /** An object pointer (`PyObject *`): null, or the address of an object. */
  datatype Ptr = Null | Obj(id: nat)

  /** The interpreter's reference counts. An object is live while its count
      is positive; when the last reference is dropped it is deallocated and
      leaves the map. */
  type Counts = map<nat, nat>

  /** The id of the interpreter's `None` singleton, which is always live. */
  const NoneId: nat := 0

  /** The reference count of `id` (zero once it has been deallocated). */
  function RefCount(c: Counts, id: nat): nat
  {
    if id in c then c[id] else 0
  }

  /** `id` names an object that has not been deallocated. */
  predicate Live(c: Counts, id: nat)
  {
    RefCount(c, id) >= 1
  }

  /** `Py_INCREF`: one more reference to a live object. */
  function IncRef(c: Counts, id: nat): (r: Counts)
    requires Live(c, id)
    ensures RefCount(r, id) == RefCount(c, id) + 1
    ensures forall x :: x != id ==> RefCount(r, x) == RefCount(c, x)
  {
    c[id := c[id] + 1]
  }

  /** `Py_DECREF`: one reference fewer; the last one deallocates the object. */
  function DecRef(c: Counts, id: nat): (r: Counts)
    requires Live(c, id)
    ensures RefCount(r, id) == RefCount(c, id) - 1
    ensures Live(r, id) <==> RefCount(c, id) >= 2
    ensures forall x :: x != id ==> RefCount(r, x) == RefCount(c, x)
  {
    if c[id] == 1 then c - {id} else c[id := c[id] - 1]
  }

  /** `Py_INCREF` on a pointer that may be null (`Py_XINCREF`). */
  function Acquire(p: Ptr, c: Counts): (r: Counts)
    requires p.Obj? ==> Live(c, p.id)
    ensures forall x :: RefCount(r, x) == RefCount(c, x) + (if p == Obj(x) then 1 else 0)
  {
    if p.Obj? then IncRef(c, p.id) else c
  }

  /** `Py_DECREF` guarded by a null check (`Py_XDECREF`). */
  function Release(p: Ptr, c: Counts): (r: Counts)
    requires p.Obj? ==> Live(c, p.id)
    ensures forall x :: RefCount(r, x) == RefCount(c, x) - (if p == Obj(x) then 1 else 0)
  {
    if p.Obj? then DecRef(c, p.id) else c
  }

  /** A runtime constructor returning a new reference to `id`: a freshly
      allocated object (count 1) or a shared one (one more reference). */
  function NewReference(c: Counts, id: nat): (r: Counts)
    ensures RefCount(r, id) == RefCount(c, id) + 1
    ensures forall x :: x != id ==> RefCount(r, x) == RefCount(c, x)
  {
    c[id := RefCount(c, id) + 1]
  }
}
