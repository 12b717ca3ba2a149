/**
  `PyTypeRegistration` (Sources/PyTypeRegistration.cpp): every wrapper type
  owns a static registration object whose constructor pushes it onto the
  front of an intrusive doubly-linked list (`firstType`, `nextType`,
  `prevType`) and whose destructor unlinks it. Module initialisation walks
  the list twice: once to prepare every type, once to add every type to the
  module.

  The links are modelled as a map from registration address to node;
  `Valid(r, order)` says that the links describe exactly the sequence
  `order`, front to back.
*/
module TypeRegistry {
  import opened Base

  /** Address of a registration object. */
  type Id = nat

  /** A plain registration, or an enumeration registration with its
      name-to-value table (`PyTypeRegistrationEnum::enumValues`). */
  datatype Kind = Plain | Enum(values: map<string, int>)

  /** What a registration describes: the Python name, the type object it
      installs (`typeData`, by address) and its kind. */
  datatype Entry = Entry(name: string, typeObj: nat, kind: Kind)

  /** A registration object with its list links. */
  datatype Node = Node(entry: Entry, next: Option<Id>, prev: Option<Id>)

  /** The static list: `firstType` and the registration objects alive. */
  datatype Registry = Registry(first: Option<Id>, nodes: map<Id, Node>)

  /** Before static initialisation: `firstType == nullptr`, nothing alive. */
  const Empty := Registry(None, map[])

  /** The element after position `k` of `order`, if any. */
  function After(order: seq<Id>, k: nat): Option<Id>
    requires k < |order|
  {
    if k + 1 < |order| then Some(order[k + 1]) else None
  }

  /** The element before position `k` of `order`, if any. */
  function Before(order: seq<Id>, k: nat): Option<Id>
    requires k < |order|
  {
    if k == 0 then None else Some(order[k - 1])
  }

  ghost predicate Distinct(order: seq<Id>)
  {
    forall k, l :: 0 <= k < l < |order| ==> order[k] != order[l]
  }

  /** The links of `r` form the list `order`: it starts at `firstType`,
      each `nextType` is the successor, each `prevType` the predecessor,
      and exactly the listed registrations are alive. */
  ghost predicate Valid(r: Registry, order: seq<Id>)
  {
    && Distinct(order)
    && (forall k :: 0 <= k < |order| ==> order[k] in r.nodes)
    && (forall a :: a in r.nodes ==> a in order)
    && r.first == (if |order| == 0 then None else Some(order[0]))
    && (r.first.Some? ==> r.first.value in r.nodes)
    && (forall k :: 0 <= k < |order| ==> Linked(r, order, k))
  }

  /** The registration at position `k` is alive and its links point to its
      neighbours in `order`. */
  ghost predicate Linked(r: Registry, order: seq<Id>, k: nat)
    requires k < |order|
  {
    && order[k] in r.nodes
    && r.nodes[order[k]].next == After(order, k)
    && r.nodes[order[k]].prev == Before(order, k)
  }

  /** Link consistency in the pointer-level form: following `nextType` and
      then `prevType` (or the reverse) gets back to the same node. */
  lemma ValidLinksAgree(r: Registry, order: seq<Id>, a: Id)
    requires Valid(r, order) && a in r.nodes
    ensures r.nodes[a].next.Some? ==>
              r.nodes[a].next.value in r.nodes && r.nodes[r.nodes[a].next.value].prev == Some(a)
    ensures r.nodes[a].prev.Some? ==>
              r.nodes[a].prev.value in r.nodes && r.nodes[r.nodes[a].prev.value].next == Some(a)
  {
    var k :| 0 <= k < |order| && order[k] == a;
    assert Linked(r, order, k);
    if k + 1 < |order| {
      assert Linked(r, order, k + 1);
    }
    if k > 0 {
      assert Linked(r, order, k - 1);
    }
  }

  /** Constructor: the new registration becomes `firstType`, the old head
      becomes its successor and gets it as predecessor. */
  function Register(r: Registry, id: Id, e: Entry): (r': Registry)
    requires id !in r.nodes
    requires r.first.Some? ==> r.first.value in r.nodes
    ensures r'.first == Some(id)
    ensures r'.nodes.Keys == r.nodes.Keys + {id}
    ensures r'.nodes[id] == Node(e, r.first, None)
    ensures r.first.Some? ==> r'.nodes[r.first.value] == r.nodes[r.first.value].(prev := Some(id))
    ensures forall a :: a in r.nodes && Some(a) != r.first ==> r'.nodes[a] == r.nodes[a]
  {
    var nodes := r.nodes[id := Node(e, r.first, None)];
    if r.first.Some? then
      var head := r.first.value;
      Registry(Some(id), nodes[head := nodes[head].(prev := Some(id))])
    else
      Registry(Some(id), nodes)
  }

  /** The destructor dereferences the neighbours it relinks. */
  predicate Unlinkable(r: Registry, id: Id)
  {
    && id in r.nodes
    && (r.nodes[id].prev.Some? ==> r.nodes[id].prev.value in r.nodes)
    && (r.nodes[id].next.Some? ==> r.nodes[id].next.value in r.nodes)
  }

  /** Destructor: the neighbours are linked to each other, `firstType`
      moves on if it was this registration, and the object is gone. */
  function Unregister(r: Registry, id: Id): (r': Registry)
    requires Unlinkable(r, id)
    ensures r'.nodes.Keys == r.nodes.Keys - {id}
    ensures r'.first == (if r.first == Some(id) then r.nodes[id].next else r.first)
  {
    var n := r.nodes[id];
    var nodes1 := if n.prev.Some? then r.nodes[n.prev.value := r.nodes[n.prev.value].(next := n.next)] else r.nodes;
    var nodes2 := if n.next.Some? then nodes1[n.next.value := nodes1[n.next.value].(prev := n.prev)] else nodes1;
    Registry(if r.first == Some(id) then n.next else r.first, nodes2 - {id})
  }

  /** A registration in a valid list becomes its new front. */
  lemma {:induction false} RegisterValid(r: Registry, order: seq<Id>, id: Id, e: Entry)
    requires Valid(r, order) && id !in r.nodes
    ensures Valid(Register(r, id, e), [id] + order)
  {
    if |order| > 0 {
      assert Linked(r, order, 0);
    }
    var r' := Register(r, id, e);
    var order' := [id] + order;
    forall k | 0 <= k < |order|
      ensures order[k] != id
    {
      assert Linked(r, order, k);
    }
    forall k | 0 <= k < |order'|
      ensures Linked(r', order', k)
    {
      if k > 0 {
        assert order'[k] == order[k - 1];
        assert Linked(r, order, k - 1);
      }
    }
  }

  /** The node of a surviving registration `x` after `Unregister(r, id)`:
      only the two neighbours of `id` change. */
  lemma UnregisterNode(r: Registry, id: Id, x: Id)
    requires Unlinkable(r, id) && x in r.nodes && x != id
    requires r.nodes[id].prev.Some? && r.nodes[id].next.Some? ==> r.nodes[id].prev != r.nodes[id].next
    ensures Unregister(r, id).nodes[x] ==
              if Some(x) == r.nodes[id].prev then r.nodes[x].(next := r.nodes[id].next)
              else if Some(x) == r.nodes[id].next then r.nodes[x].(prev := r.nodes[id].prev)
              else r.nodes[x]
  {
  }

  /** One surviving position after `Unregister`: its links skip the
      removed registration. Only the links around the two positions are
      needed. */
  lemma UnregisterLinked(r: Registry, order: seq<Id>, k: nat, j: nat)
    requires Distinct(order) && k < |order| && Unlinkable(r, order[k])
    requires j < |order| - 1
    requires Linked(r, order, k) && Linked(r, order, if j < k then j else j + 1)
    ensures Linked(Unregister(r, order[k]), order[..k] + order[k + 1..], j)
  {
    var id := order[k];
    var order' := order[..k] + order[k + 1..];
    var pos := if j < k then j else j + 1;
    assert order'[j] == order[pos];
    if k > 0 && k + 1 < |order| {
      assert order[k - 1] != order[k + 1];
    }
    UnregisterNode(r, id, order[pos]);
    if pos == k - 1 {
      assert After(order', j) == After(order, k);
    } else if pos == k + 1 {
      assert Before(order', j) == Before(order, k);
    } else {
      if k > 0 { assert order[pos] != order[k - 1]; }
      if k + 1 < |order| { assert order[pos] != order[k + 1]; }
      if j + 1 < |order'| { assert order'[j + 1] == order[pos + 1]; }
      if j > 0 { assert order'[j - 1] == order[pos - 1]; }
    }
  }

  /** Removing one element keeps the others distinct. */
  lemma DistinctRemove(order: seq<Id>, k: nat)
    requires Distinct(order) && k < |order|
    ensures Distinct(order[..k] + order[k + 1..])
  {
  }

  /** Unregistering the element at position `k` of a valid list leaves a
      valid list of the others, in their relative order. */
  lemma {:induction false} UnregisterValid(r: Registry, order: seq<Id>, k: nat)
    requires Valid(r, order) && k < |order| && Unlinkable(r, order[k])
    ensures Valid(Unregister(r, order[k]), order[..k] + order[k + 1..])
  {
    var id := order[k];
    assert Linked(r, order, k);
    var r' := Unregister(r, id);
    var order' := order[..k] + order[k + 1..];
    DistinctRemove(order, k);
    forall j | 0 <= j < |order'|
      ensures Linked(r', order', j)
    {
      assert Linked(r, order, if j < k then j else j + 1);
      UnregisterLinked(r, order, k, j);
    }
    UnregisterKeys(r.nodes.Keys, r'.nodes.Keys, order, k);
    assert r'.first.Some? ==> r'.first.value in r'.nodes by {
      if k == 0 && |order| > 1 {
        assert Linked(r, order, 1);
      }
    }
  }

  /** The registrations still alive after removing position `k` are the
      ones listed without it. */
  lemma UnregisterKeys(keys: set<Id>, keys': set<Id>, order: seq<Id>, k: nat)
    requires k < |order| && keys' == keys - {order[k]}
    requires forall a :: a in keys ==> a in order
    ensures forall a :: a in keys' ==> a in order[..k] + order[k + 1..]
  {
    var order' := order[..k] + order[k + 1..];
    forall x | x in keys'
      ensures x in order'
    {
      var j :| 0 <= j < |order| && order[j] == x;
      if j < k { assert order'[j] == x; } else { assert order'[j - 1] == x; }
    }
  }

  /** In a valid list the destructor's neighbours are alive. */
  lemma ValidUnlinkable(r: Registry, order: seq<Id>, k: nat)
    requires Valid(r, order) && k < |order|
    ensures Unlinkable(r, order[k])
  {
    assert Linked(r, order, k);
    ValidLinksAgree(r, order, order[k]);
  }

  /** The registration addresses in registration order, reversed. */
  function Reverse(s: seq<Id>): (r: seq<Id>)
    ensures |r| == |s|
    ensures forall k :: 0 <= k < |s| ==> r[k] == s[|s| - 1 - k]
  {
    if |s| == 0 then [] else [s[|s| - 1]] + Reverse(s[..|s| - 1])
  }

  /** Static initialisation: the registrations are constructed in the
      order given (an input: the order across translation units is chosen
      by the toolchain). */
  function RegisterAll(regs: seq<(Id, Entry)>): (r: Registry)
    requires forall k, l :: 0 <= k < l < |regs| ==> regs[k].0 != regs[l].0
    ensures forall a :: a in r.nodes <==> a in Ids(regs)
    ensures r.first == (if |regs| == 0 then None else Some(regs[|regs| - 1].0))
  {
    if |regs| == 0 then Empty
    else
      var prefix := RegisterAll(regs[..|regs| - 1]);
      var last := regs[|regs| - 1];
      IdsSnoc(regs);
      Register(prefix, last.0, last.1)
  }

  /** The addresses of all registrations but the last, and the last one:
      with distinct addresses, the last is not among the others. */
  lemma IdsSnoc(regs: seq<(Id, Entry)>)
    requires forall k, l :: 0 <= k < l < |regs| ==> regs[k].0 != regs[l].0
    requires |regs| > 0
    ensures var last := regs[|regs| - 1].0;
            && Ids(regs[..|regs| - 1]) == Ids(regs)[..|regs| - 1]
            && last !in Ids(regs[..|regs| - 1])
            && forall a :: a in Ids(regs) <==> a in Ids(regs[..|regs| - 1]) || a == last
  {
    var ids := Ids(regs);
    assert ids == Ids(regs[..|regs| - 1]) + [ids[|ids| - 1]];
  }

  function Ids(regs: seq<(Id, Entry)>): (ids: seq<Id>)
    ensures |ids| == |regs| && forall k :: 0 <= k < |regs| ==> ids[k] == regs[k].0
  {
    seq(|regs|, k requires 0 <= k < |regs| => regs[k].0)
  }

  /** The list order is the reverse of registration order: the registration
      constructed last is `firstType`. */
  lemma {:induction false} RegisterAllValid(regs: seq<(Id, Entry)>)
    requires forall k, l :: 0 <= k < l < |regs| ==> regs[k].0 != regs[l].0
    ensures Valid(RegisterAll(regs), Reverse(Ids(regs)))
    decreases |regs|
  {
    if |regs| > 0 {
      var prefix := regs[..|regs| - 1];
      var last := regs[|regs| - 1];
      RegisterAllValid(prefix);
      RegisterAllStep(regs);
      RegisterValid(RegisterAll(prefix), Reverse(Ids(prefix)), last.0, last.1);
    }
  }

  /** One more registration at the end of the construction sequence. */
  lemma RegisterAllStep(regs: seq<(Id, Entry)>)
    requires forall k, l :: 0 <= k < l < |regs| ==> regs[k].0 != regs[l].0
    requires |regs| > 0
    ensures var prefix := regs[..|regs| - 1];
            var last := regs[|regs| - 1];
            && last.0 !in RegisterAll(prefix).nodes
            && RegisterAll(regs) == Register(RegisterAll(prefix), last.0, last.1)
            && Reverse(Ids(regs)) == [last.0] + Reverse(Ids(prefix))
  {
    var prefix := regs[..|regs| - 1];
    assert Ids(prefix) == Ids(regs)[..|regs| - 1];
  }

  // ---------------------------------------------------------------------
  // The two walks over the list.

  /** The entries of the registrations listed in `order`. */
  function Entries(r: Registry, order: seq<Id>): (es: seq<Entry>)
    requires forall k :: 0 <= k < |order| ==> order[k] in r.nodes
    ensures |es| == |order| && forall k :: 0 <= k < |order| ==> es[k] == r.nodes[order[k]].entry
  {
    seq(|order|, k requires 0 <= k < |order| => r.nodes[order[k]].entry)
  }

  /** Every registration listed by a valid registry is alive. */
  lemma ValidMembers(r: Registry, order: seq<Id>)
    requires Valid(r, order)
    ensures forall k :: 0 <= k < |order| ==> order[k] in r.nodes
  {
    forall k | 0 <= k < |order|
      ensures order[k] in r.nodes
    {
      assert Linked(r, order, k);
    }
  }

  /** Reference definition of `getAllReady` over a sequence: prepare the
      entries front to back and stop after the first failure. Yields the
      verdict and the registrations prepared. */
  function PrepareInOrder(order: seq<Id>, ready: Id -> bool): (r: (bool, seq<Id>))
    ensures r.0 <==> forall k :: 0 <= k < |order| ==> ready(order[k])
    ensures r.0 ==> r.1 == order
    ensures !r.0 ==> 0 < |r.1| <= |order| && r.1 == order[..|r.1|] && !ready(r.1[|r.1| - 1])
    ensures forall k :: 0 <= k < |r.1| - 1 ==> ready(r.1[k])
  {
    if |order| == 0 then (true, [])
    else if !ready(order[0]) then (false, [order[0]])
    else
      var rest := PrepareInOrder(order[1..], ready);
      assert forall k :: 1 <= k < |order| ==> order[k] == order[1..][k - 1];
      (rest.0, [order[0]] + rest.1)
  }

  /** `getAllReady`: walks `nextType` from `firstType`, calling the virtual
      `getReady` (whose outcome per registration is `ready`) and returning
      false at the first failure. Also yields the registrations on which
      `getReady` was called, in call order. */
  method GetAllReady(r: Registry, ghost order: seq<Id>, ready: Id -> bool) returns (ok: bool, prepared: seq<Id>)
    requires Valid(r, order)
    ensures ok <==> forall k :: 0 <= k < |order| ==> ready(order[k])
    ensures ok ==> prepared == order
    ensures !ok ==> 0 < |prepared| <= |order| && prepared == order[..|prepared|]
                    && !ready(prepared[|prepared| - 1])
    ensures forall j :: 0 <= j < |prepared| - 1 ==> ready(prepared[j])
  {
    var cur := r.first;
    ghost var k := 0;
    prepared := [];
    while cur.Some?
      invariant 0 <= k <= |order|
      invariant cur == (if k < |order| then Some(order[k]) else None)
      invariant prepared == order[..k]
      invariant forall j :: 0 <= j < k ==> ready(order[j])
      decreases |order| - k
    {
      assert Linked(r, order, k);
      var id := cur.value;
      prepared := prepared + [id];
      assert prepared == order[..k + 1];
      if !ready(id) {
        return false, prepared;
      }
      cur := r.nodes[id].next;
      k := k + 1;
    }
    assert order[..k] == order;
    return true, prepared;
  }

  /** The walk's outcome as `GetAllReady` states it is exactly the reference
      definition: a verdict and a prepared prefix with those properties can
      only be the ones `PrepareInOrder` yields. */
  lemma PreparedIsReference(order: seq<Id>, ready: Id -> bool, ok: bool, prepared: seq<Id>)
    requires ok <==> forall k :: 0 <= k < |order| ==> ready(order[k])
    requires ok ==> prepared == order
    requires !ok ==> 0 < |prepared| <= |order| && prepared == order[..|prepared|]
                     && !ready(prepared[|prepared| - 1])
    requires forall j :: 0 <= j < |prepared| - 1 ==> ready(prepared[j])
    ensures (ok, prepared) == PrepareInOrder(order, ready)
  {
    if ok {
      PrepareAllReady(order, ready);
    } else {
      var k := |prepared| - 1;
      assert forall j :: 0 <= j <= k ==> prepared[j] == order[j];
      PrepareStopsAt(order, ready, k);
    }
  }

  lemma {:induction false} PrepareStopsAt(order: seq<Id>, ready: Id -> bool, k: nat)
    requires k < |order| && !ready(order[k])
    requires forall j :: 0 <= j < k ==> ready(order[j])
    ensures PrepareInOrder(order, ready) == (false, order[..k + 1])
  {
    if k > 0 {
      assert ready(order[0]);
      PrepareStopsAt(order[1..], ready, k - 1);
      assert order[..k + 1] == [order[0]] + order[1..][..k];
    }
  }

  lemma PrepareAllReady(order: seq<Id>, ready: Id -> bool)
    requires forall j :: 0 <= j < |order| ==> ready(order[j])
    ensures PrepareInOrder(order, ready) == (true, order)
  {
  }

  /** Module attributes (name to type object) after `PyModule_AddObject`
      for each entry in turn; a later entry of the same name overwrites. */
  function AddTypes(attrs: map<string, nat>, es: seq<Entry>): map<string, nat>
  {
    if |es| == 0 then attrs
    else AddTypes(attrs, es[..|es| - 1])[es[|es| - 1].name := es[|es| - 1].typeObj]
  }

  /** Some entry has this name. */
  ghost predicate Named(es: seq<Entry>, n: string)
  {
    exists k :: 0 <= k < |es| && es[k].name == n
  }

  /** No entry after position `k` has the same name. */
  ghost predicate LastOfName(es: seq<Entry>, k: nat)
    requires k < |es|
  {
    forall l :: k < l < |es| ==> es[l].name != es[k].name
  }

  /** What adding the types does to the module: every entry's name is
      added, the last entry of each name decides its type, and the module's
      other attributes stay as they were. */
  lemma {:induction false} AddTypesSpec(attrs: map<string, nat>, es: seq<Entry>)
    ensures forall k :: 0 <= k < |es| ==> es[k].name in AddTypes(attrs, es)
    ensures forall n :: n in AddTypes(attrs, es) ==> n in attrs || Named(es, n)
    ensures forall k :: 0 <= k < |es| && LastOfName(es, k) ==> AddTypes(attrs, es)[es[k].name] == es[k].typeObj
    ensures forall n :: n in attrs && !Named(es, n) ==> n in AddTypes(attrs, es) && AddTypes(attrs, es)[n] == attrs[n]
    decreases |es|
  {
    if |es| > 0 {
      var prefix := es[..|es| - 1];
      var e := es[|es| - 1];
      AddTypesSpec(attrs, prefix);
      var r := AddTypes(attrs, es);
      assert r == AddTypes(attrs, prefix)[e.name := e.typeObj];
      forall k | 0 <= k < |es|
        ensures es[k].name in r
      {
        if k < |es| - 1 { assert prefix[k] == es[k]; }
      }
      forall n | n in r
        ensures n in attrs || Named(es, n)
      {
        if n == e.name {
          assert es[|es| - 1].name == n;
        } else if !(n in attrs) {
          assert Named(prefix, n);
          var k :| 0 <= k < |prefix| && prefix[k].name == n;
          assert es[k].name == n;
        }
      }
      forall k | 0 <= k < |es| && LastOfName(es, k)
        ensures r[es[k].name] == es[k].typeObj
      {
        if k < |es| - 1 {
          assert prefix[k] == es[k];
          assert es[|es| - 1].name != es[k].name;
          assert LastOfName(prefix, k) by {
            forall l | k < l < |prefix|
              ensures prefix[l].name != prefix[k].name
            {
              assert prefix[l] == es[l];
            }
          }
        }
      }
      forall n | n in attrs && !Named(es, n)
        ensures n in r && r[n] == attrs[n]
      {
        assert es[|es| - 1].name != n;
        assert !Named(prefix, n) by {
          forall k | 0 <= k < |prefix|
            ensures prefix[k].name != n
          {
            assert prefix[k] == es[k];
          }
        }
      }
    }
  }

  /** `result` is `attrs` with the entries `es` added: every name is
      present, the last entry of each name decides its type, no other name
      appears, and the other attributes keep their values. */
  ghost predicate AddedAll(attrs: map<string, nat>, es: seq<Entry>, result: map<string, nat>)
  {
    && (forall k :: 0 <= k < |es| ==> es[k].name in result)
    && (forall k :: 0 <= k < |es| && LastOfName(es, k) ==> result[es[k].name] == es[k].typeObj)
    && (forall n :: n in result ==> n in attrs || Named(es, n))
    && (forall n :: n in attrs && !Named(es, n) ==> n in result && result[n] == attrs[n])
  }

  /** `addAllTypes`: walks the list once, calling the virtual `addType` on
      every registration; yields the registrations visited and the module's
      attributes afterwards. */
  method AddAllTypes(r: Registry, ghost order: seq<Id>, attrs: map<string, nat>)
    returns (added: seq<Id>, attrs': map<string, nat>)
    requires Valid(r, order)
    ensures added == order
    ensures AddedAll(attrs, Entries(r, order), attrs')
  {
    ValidMembers(r, order);
    added, attrs' := VisitAll(r, order, attrs);
    AddTypesSpec(attrs, Entries(r, order));
  }

  /** The links lead from `firstType` through `order`: all that a walk
      over the list relies on. */
  ghost predicate Walkable(r: Registry, order: seq<Id>)
  {
    && r.first == (if |order| == 0 then None else Some(order[0]))
    && (forall k :: 0 <= k < |order| ==> order[k] in r.nodes)
    && (forall k :: 0 <= k < |order| ==> Linked(r, order, k))
  }

  /** The loop of `addAllTypes`: one `addType` per registration, in list
      order. */
  method VisitAll(r: Registry, ghost order: seq<Id>, attrs: map<string, nat>)
    returns (added: seq<Id>, attrs': map<string, nat>)
    requires Walkable(r, order)
    ensures added == order
    ensures attrs' == AddTypes(attrs, Entries(r, order))
  {
    ghost var es := Entries(r, order);
    var cur := r.first;
    ghost var k := 0;
    added := [];
    attrs' := attrs;
    while cur.Some?
      invariant 0 <= k <= |order|
      invariant cur == (if k < |order| then Some(order[k]) else None)
      invariant added == order[..k]
      invariant attrs' == AddTypes(attrs, es[..k])
      decreases |order| - k
    {
      assert Linked(r, order, k);
      var id := cur.value;
      var e := r.nodes[id].entry;
      assert e == es[k];
      AddTypesExtend(attrs, es, k);
      added := added + [id];
      attrs' := attrs'[e.name := e.typeObj];
      cur := r.nodes[id].next;
      k := k + 1;
    }
    assert order[..k] == order;
    assert es[..k] == es;
  }

  /** Adding one more entry to a prefix. */
  lemma AddTypesExtend(attrs: map<string, nat>, es: seq<Entry>, k: nat)
    requires k < |es|
    ensures AddTypes(attrs, es[..k + 1]) == AddTypes(attrs, es[..k])[es[k].name := es[k].typeObj]
  {
    assert es[..k + 1][..k] == es[..k];
  }

  // ---------------------------------------------------------------------
  // Enumeration registrations.

  /** A value in a type's dictionary: an enumeration constant added here,
      or anything else the type already had. */
  datatype Member = IntMember(value: int) | OtherMember

  /** The names of `values` listed once each, in the map's iteration order. */
  ghost predicate Enumerates(names: seq<string>, values: map<string, int>)
  {
    && (forall k, l :: 0 <= k < l < |names| ==> names[k] != names[l])
    && (set n | n in names) == values.Keys
  }

  /** The enumeration loop from the start: for each name, fail if the
      dictionary already has it, otherwise store its value. */
  function InstallValues(names: seq<string>, values: map<string, int>, dict: map<string, Member>)
    : (r: (bool, map<string, Member>))
    requires forall n :: n in names ==> n in values
    requires forall k, l :: 0 <= k < l < |names| ==> names[k] != names[l]
    ensures r.0 <==> forall n :: n in names ==> n !in dict
    ensures r.0 ==> r.1.Keys == dict.Keys + (set n | n in names)
    ensures r.0 ==> forall n :: n in names ==> r.1[n] == IntMember(values[n])
    ensures forall n :: n in dict ==> n in r.1 && r.1[n] == dict[n]
    ensures forall n :: n in r.1 && n !in dict ==> n in names && r.1[n] == IntMember(values[n])
    decreases |names|
  {
    if |names| == 0 then (true, dict)
    else if names[0] in dict then (false, dict)
    else
      var rest := names[1..];
      InstallRest(names);
      InstallValues(rest, values, dict[names[0] := IntMember(values[names[0]])])
  }

  /** Installation stops at the first name the dictionary already holds:
      the verdict is false and exactly the names before it were added, so
      no name after the clash is installed. */
  lemma {:induction false} InstallStopsAtClash(names: seq<string>, values: map<string, int>,
                                               dict: map<string, Member>, k: nat)
    requires forall n :: n in names ==> n in values
    requires forall i, l :: 0 <= i < l < |names| ==> names[i] != names[l]
    requires k < |names| && names[k] in dict
    requires forall j :: 0 <= j < k ==> names[j] !in dict
    ensures !InstallValues(names, values, dict).0
    ensures InstallValues(names, values, dict).1.Keys == dict.Keys + (set j | 0 <= j < k :: names[j])
    decreases k
  {
    if k > 0 {
      var rest := names[1..];
      var dict' := dict[names[0] := IntMember(values[names[0]])];
      InstallRest(names);
      assert rest[k - 1] == names[k];
      forall j | 0 <= j < k - 1 ensures rest[j] !in dict' {
        assert rest[j] == names[j + 1];
      }
      InstallStopsAtClash(rest, values, dict', k - 1);
      PrefixNamesShift(names, k);
    }
  }

  /** The first `k` names are the first name and the first `k - 1` of the
      rest. */
  lemma PrefixNamesShift(names: seq<string>, k: nat)
    requires 0 < k <= |names|
    ensures (set j | 0 <= j < k :: names[j]) == {names[0]} + (set j | 0 <= j < k - 1 :: names[1..][j])
  {
    var rest := names[1..];
    var whole := set j | 0 <= j < k :: names[j];
    var tail := set j | 0 <= j < k - 1 :: rest[j];
    forall j | 0 <= j < k ensures names[j] in {names[0]} + tail {
      if j > 0 {
        assert names[j] == rest[j - 1];
      }
    }
    forall j | 0 <= j < k - 1 ensures rest[j] in whole {
      assert rest[j] == names[j + 1];
    }
  }

  /** The names after the first: still distinct, without the first, and
      together with it the same set. */
  lemma InstallRest(names: seq<string>)
    requires |names| > 0
    requires forall k, l :: 0 <= k < l < |names| ==> names[k] != names[l]
    ensures forall k, l :: 0 <= k < l < |names[1..]| ==> names[1..][k] != names[1..][l]
    ensures forall n :: n in names[1..] ==> n in names
    ensures names[0] !in names[1..]
    ensures (set n | n in names) == (set n | n in names[1..]) + {names[0]}
  {
    forall k, l | 0 <= k < l < |names[1..]| ensures names[1..][k] != names[1..][l] {
      assert names[1..][k] == names[k + 1] && names[1..][l] == names[l + 1];
    }
    forall l | 0 <= l < |names[1..]| ensures names[1..][l] != names[0] {
      assert names[1..][l] == names[l + 1];
    }
  }

  /** `PyTypeRegistrationEnum::getReady`: prepares the type (`baseReady` is
      the outcome of `PyType_Ready`) and then adds each constant to the type
      dictionary, failing on a name the dictionary already holds. */
  function EnumGetReady(baseReady: bool, values: map<string, int>, names: seq<string>,
                        dict: map<string, Member>): (r: (bool, map<string, Member>))
    requires Enumerates(names, values)
    ensures !baseReady ==> r == (false, dict)
    ensures r.0 <==> baseReady && forall n :: n in values ==> n !in dict
    ensures r.0 ==> r.1.Keys == dict.Keys + values.Keys
    ensures r.0 ==> forall n :: n in values ==> r.1[n] == IntMember(values[n])
    ensures forall n :: n in dict ==> n in r.1 && r.1[n] == dict[n]
    ensures forall n :: n in r.1 && n !in dict ==> n in values && r.1[n] == IntMember(values[n])
  {
    if !baseReady then (false, dict)
    else InstallValues(names, values, dict)
  }

  /** Preparing an enumeration type fails as soon as a constant's name is
      already in the type dictionary: exactly the constants before it (in
      the map's iteration order `names`) have been added. */
  lemma EnumStopsAtClash(values: map<string, int>, names: seq<string>, dict: map<string, Member>, k: nat)
    requires Enumerates(names, values)
    requires k < |names| && names[k] in dict
    requires forall j :: 0 <= j < k ==> names[j] !in dict
    ensures !EnumGetReady(true, values, names, dict).0
    ensures EnumGetReady(true, values, names, dict).1.Keys == dict.Keys + (set j | 0 <= j < k :: names[j])
  {
    InstallStopsAtClash(names, values, dict, k);
  }
}
