/**
  Image buffers (Sources/BlenderUtils.cpp): a source object is accepted as
  a Blender `bgl.Buffer` or, failing that, through the Python buffer
  protocol. A holder keeps a reference to its source for its lifetime.

  The `bgl.Buffer` type is not known when the module loads: the first
  object whose type is named "bgl.Buffer" fixes it (the class static
  `BlenderBufferHolder::bglBufferType`), and from then on only that very
  type is accepted.
*/
module BufferHolder {
  import opened Base
  import opened ObjectOwner

  /** A type object: its address and its `tp_name`. */
  datatype PyType = PyType(addr: nat, name: string)

  /** A source object as the dispatch sees it: its id, its type, the byte
      pointer a `bgl.Buffer` stores (`buf.asbyte`), and whether it supports
      the buffer protocol (`PyObject_CheckBuffer`). */
  datatype Source = Source(id: nat, typ: PyType, bglBytes: nat, hasBuffer: bool)

  /** A successful `PyObject_GetBuffer`: the data pointer and byte length. */
  datatype View = View(buf: nat, len: nat)

  /** The static `bglBufferType`: unset, or the cached `bgl.Buffer` type. */
  type BglCache = Option<PyType>

  const BglBufferName: string := "bgl.Buffer"

  /** `BlenderBufferHolder::isSuitable`: whether `t` is the Blender buffer
      type, and the cache afterwards. */
  function IsSuitable(cache: BglCache, t: PyType): (r: (bool, BglCache))
    ensures cache.None? ==> (r.0 <==> t.name == BglBufferName)
    ensures cache.None? ==> r.1 == (if r.0 then Some(t) else None)
    ensures cache.Some? ==> r.1 == cache && (r.0 <==> t.addr == cache.value.addr)
  {
    match cache
    case None => if t.name == BglBufferName then (true, Some(t)) else (false, None)
    case Some(cached) => (t.addr == cached.addr, cache)
  }

  /** The cache after `isSuitable` has seen the types `ts` in turn. */
  function CacheAfter(cache: BglCache, ts: seq<PyType>): BglCache
    decreases |ts|
  {
    if |ts| == 0 then cache else CacheAfter(IsSuitable(cache, ts[0]).1, ts[1..])
  }

  /** The first type named "bgl.Buffer" in `ts`, if any. */
  function FirstBgl(ts: seq<PyType>): BglCache
  {
    if |ts| == 0 then None
    else if ts[0].name == BglBufferName then Some(ts[0])
    else FirstBgl(ts[1..])
  }

  /** Starting from an empty cache, the cache ends up holding the first
      type named "bgl.Buffer" that was ever seen; once set it never
      changes. */
  lemma {:induction false} CacheIsFirstBgl(cache: BglCache, ts: seq<PyType>)
    ensures cache.None? ==> CacheAfter(cache, ts) == FirstBgl(ts)
    ensures cache.Some? ==> CacheAfter(cache, ts) == cache
    decreases |ts|
  {
    if |ts| > 0 {
      CacheIsFirstBgl(IsSuitable(cache, ts[0]).1, ts[1..]);
    }
  }

  /** After any history of calls, a type is accepted exactly when it is the
      first "bgl.Buffer" type seen, or, if none was seen yet, when it is
      named "bgl.Buffer". In particular a second, different type named
      "bgl.Buffer" is refused. */
  lemma AcceptedAfterHistory(ts: seq<PyType>, t: PyType)
    ensures var first := FirstBgl(ts);
            IsSuitable(CacheAfter(None, ts), t).0 <==>
              (if first.Some? then t.addr == first.value.addr else t.name == BglBufferName)
  {
    CacheIsFirstBgl(None, ts);
  }

  /** An image-buffer holder: which constructor made it, the owner of its
      source, the exporter reference a successful buffer request stores in
      the `Py_buffer` (`view->obj`, null when there is none), the data
      pointer and the size in bytes. */
  datatype HolderKind = BlenderHolder | PythonHolder
  datatype Holder = Holder(kind: HolderKind, source: Owner, view: Ptr, data: Ptr, size: nat)

  /** The references a holder keeps are all counted: its source owner's,
      and the view's, which is one more on the same source. */
  predicate HolderHolds(c: Counts, h: Holder)
  {
    && Holds(c, h.source.ptr)
    && (h.view.Obj? ==> h.view == h.source.ptr && RefCount(c, h.view.id) >= 2)
  }

  /** `ImageBufferHolder` constructor: takes a new reference to the source;
      no data yet. */
  function NewImageHolder(kind: HolderKind, src: nat, c: Counts): (r: (Holder, Counts))
    requires Live(c, src)
    ensures r.0 == Holder(kind, Owner(Obj(src)), Null, Null, 0)
    ensures forall x :: RefCount(r.1, x) == RefCount(c, x) + (if x == src then 1 else 0)
  {
    var step := Construct(Obj(src), true, c);
    (Holder(kind, step.owner, Null, Null, 0), step.counts)
  }

  /** `BlenderBufferHolder` constructor: the data pointer is the buffer's
      byte pointer; the size stays 0 (never assigned). */
  function NewBlenderHolder(src: Source, c: Counts): (r: (Holder, Counts))
    requires Live(c, src.id)
    ensures r.0 == Holder(BlenderHolder, Owner(Obj(src.id)), Null, Obj(src.bglBytes), 0)
    ensures forall x :: RefCount(r.1, x) == RefCount(c, x) + (if x == src.id then 1 else 0)
  {
    var (h, c') := NewImageHolder(BlenderHolder, src.id, c);
    (h.(data := Obj(src.bglBytes)), c')
  }

  /** `PythonBufferHolder` constructor. A successful buffer request
      (`view`) gives the data and size and makes the `Py_buffer` hold a
      reference of its own to the source; a failed one keeps the base
      constructor's null and 0 and takes no reference. */
  function NewPythonHolder(src: Source, view: Option<View>, c: Counts): (r: (Holder, Counts))
    requires Live(c, src.id)
    ensures r.0.kind == PythonHolder && r.0.source == Owner(Obj(src.id))
    ensures view.Some? ==> r.0.view == Obj(src.id) && r.0.data == Obj(view.value.buf) && r.0.size == view.value.len
    ensures view.None? ==> r.0.view == Null && r.0.data == Null && r.0.size == 0
    ensures forall x :: RefCount(r.1, x) == RefCount(c, x) + (if x == src.id then (if view.Some? then 2 else 1) else 0)
  {
    var (h, c') := NewImageHolder(PythonHolder, src.id, c);
    match view
    case Some(v) => (h.(view := Obj(src.id), data := Obj(v.buf), size := v.len), IncRef(c', src.id))
    case None => (h, c')
  }

  /** Holder destructor: the Python holder releases its view
      (`PyBuffer_Release`, which does nothing without an exporter), then
      the source owner gives its reference back. */
  function DestroyHolder(h: Holder, c: Counts): (r: Counts)
    requires HolderHolds(c, h)
    ensures forall x :: RefCount(r, x) ==
                          RefCount(c, x) - (if h.source.ptr == Obj(x) then 1 else 0)
                                         - (if h.kind == PythonHolder && h.view == Obj(x) then 1 else 0)
  {
    var c1 := if h.kind == PythonHolder then Release(h.view, c) else c;
    Destroy(h.source, c1)
  }

  /** A Python holder keeps one reference to its source, two while it holds
      a buffer view, and its destruction leaves every reference count as it
      found it. */
  lemma HolderLifetime(src: Source, view: Option<View>, c: Counts)
    requires Live(c, src.id)
    ensures var (h, c1) := NewPythonHolder(src, view, c);
            && RefCount(c1, src.id) == RefCount(c, src.id) + (if view.Some? then 2 else 1)
            && HolderHolds(c1, h)
            && forall x :: RefCount(DestroyHolder(h, c1), x) == RefCount(c, x)
  {
  }

  /** A Blender holder keeps exactly one reference to its source, and its
      destruction leaves every reference count as it found it. */
  lemma BlenderHolderLifetime(src: Source, c: Counts)
    requires Live(c, src.id)
    ensures var (h, c1) := NewBlenderHolder(src, c);
            && RefCount(c1, src.id) == RefCount(c, src.id) + 1
            && HolderHolds(c1, h)
            && forall x :: RefCount(DestroyHolder(h, c1), x) == RefCount(c, x)
  {
  }

  /** Result of `getBufferHolder`: the holder (None for the empty pointer),
      the cache and the counts afterwards. */
  datatype Dispatch = Dispatch(holder: Option<Holder>, cache: BglCache, counts: Counts)

  /** `getBufferHolder`: a Blender buffer first, then the Python buffer
      protocol, otherwise nothing. `view` is what `PyObject_GetBuffer`
      would yield for the source. */
  function GetBufferHolder(src: Source, cache: BglCache, view: Option<View>, c: Counts): (r: Dispatch)
    requires Live(c, src.id)
    ensures r.cache == IsSuitable(cache, src.typ).1
    ensures IsSuitable(cache, src.typ).0 ==>
              r.holder == Some(Holder(BlenderHolder, Owner(Obj(src.id)), Null, Obj(src.bglBytes), 0))
    ensures !IsSuitable(cache, src.typ).0 && src.hasBuffer ==>
              r.holder.Some? && r.holder.value == NewPythonHolder(src, view, c).0
    ensures !IsSuitable(cache, src.typ).0 && !src.hasBuffer ==> r.holder.None? && r.counts == c
    ensures r.holder.Some? ==> r.holder.value.source == Owner(Obj(src.id))
    ensures r.holder.Some? ==> HolderHolds(r.counts, r.holder.value)
    ensures r.holder.Some? ==>
              forall x :: RefCount(r.counts, x) ==
                            RefCount(c, x) + (if x == src.id then (if r.holder.value.view.Obj? then 2 else 1) else 0)
  {
    var (blender, cache') := IsSuitable(cache, src.typ);
    if blender then
      var (h, c') := NewBlenderHolder(src, c);
      Dispatch(Some(h), cache', c')
    else if src.hasBuffer then
      var (h, c') := NewPythonHolder(src, view, c);
      Dispatch(Some(h), cache', c')
    else
      Dispatch(None, cache', c)
  }
}
