/**
  `PyInit_ARTKBlender` (Sources/ARTKBlenderModule.cpp): prepare every
  registered type, create the module, then add every type to it. The
  attributes the runtime gives every new module (`__name__`, `__doc__` and
  the like) are not tracked: the model follows only the attributes the
  registrations add.
*/
module ModuleInit {
  import opened Base
  import opened TypeRegistry

  /** What initialisation did: the module returned (None for NULL), the
      registrations prepared, whether module creation was attempted, the
      registrations added and the module's attributes. */
  datatype Outcome = Outcome(pyModule: Option<nat>, prepared: seq<Id>, created: bool,
                             added: seq<Id>, attrs: map<string, nat>)

  /** Module initialisation over the registry `r` listing `order`; `ready`
      is the outcome of each registration's `getReady` and `create` the
      outcome of `PyModule_Create` (None for NULL). */
  method Init(r: Registry, ghost order: seq<Id>, ready: Id -> bool, create: Option<nat>)
    returns (o: Outcome)
    requires Valid(r, order)
    ensures o.prepared == PrepareInOrder(order, ready).1
    ensures o.created <==> forall k :: 0 <= k < |order| ==> ready(order[k])
    ensures o.pyModule.Some? <==> o.created && create.Some?
    ensures o.pyModule.Some? ==> o.pyModule == create
    ensures o.pyModule.None? ==> o.added == [] && o.attrs == map[]
    ensures o.pyModule.Some? ==> o.prepared == order && o.added == order
    ensures o.pyModule.Some? ==> forall n :: n in o.attrs <==> Named(Entries(r, order), n)
    ensures o.pyModule.Some? ==> AddedAll(map[], Entries(r, order), o.attrs)
  {
    var ok, prepared := GetAllReady(r, order, ready);
    PreparedIsReference(order, ready, ok, prepared);
    if !ok {
      return Outcome(None, prepared, false, [], map[]);
    }
    if create.None? {
      return Outcome(None, prepared, true, [], map[]);
    }
    var added, attrs := AddAllTypes(r, order, map[]);
    ValidMembers(r, order);
    return Outcome(create, prepared, true, added, attrs);
  }
}
