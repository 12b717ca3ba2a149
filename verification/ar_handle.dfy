/**
  `ARHandle` (Sources/ARHandle.cpp): the marker-detection wrapper. Its
  state is the native handle and lookup table set by `init`, the owner of
  the attached pattern handle, the owner of the cached tuple of detected
  markers, and the `updateMarkers` flag that makes the next read of
  `markers` rebuild the tuple.

  Native calls are not modelled: their outcomes are parameters, so every
  contract holds whatever the native library returns.
*/
module ARHandle {
  import opened Base
  import opened ObjectOwner
  import opened BufferHolder
  import opened PixelFormat

  /** The wrapper object's fields. `markerItems` is the content of the
      cached tuple: entry `i` refers to native marker `i`. */
  datatype HandleObject = HandleObject(
    handle: Option<nat>,
    paramLT: Option<nat>,
    attachPatt: Owner,
    markers: Owner,
    markerItems: seq<nat>,
    updateMarkers: bool)

  /** `PyARHandle_new`: no native data yet, no pattern, an empty markers
      tuple (`emptyTuple` is what `PyTuple_New(0)` returns, as a new
      reference) and nothing to update. */
  function New(emptyTuple: nat, c: Counts): (r: (HandleObject, Counts))
    ensures r.0.handle.None? && r.0.paramLT.None?
    ensures r.0.attachPatt.ptr == Null
    ensures r.0.markers.ptr == Obj(emptyTuple) && r.0.markerItems == []
    ensures !r.0.updateMarkers
    ensures RefCount(r.1, emptyTuple) == RefCount(c, emptyTuple) + 1
    ensures forall x :: x != emptyTuple ==> RefCount(r.1, x) == RefCount(c, x)
  {
    (HandleObject(None, None, Owner(Null), Owner(Obj(emptyTuple)), [], false), NewReference(c, emptyTuple))
  }

  // ---------------------------------------------------------------------
  // init

  /** The arguments of `init` after `PyArg_ParseTupleAndKeywords`: a parse
      failure, or the ARParam object and the pixel format. */
  datatype InitArgs = BadArgs | Args(param: nat, pixFmt: int)

  /** The native calls `init` makes. */
  datatype NativeCall = CreateLookupTable | CreateHandle | SetPixelFormat(format: int)

  /** The three native steps of `init`, in the order they must happen. */
  function InitSteps(format: int): seq<NativeCall>
  {
    [CreateLookupTable, CreateHandle, SetPixelFormat(format)]
  }

  /** Whether a native step succeeded, given the outcomes of
      `arParamLTCreate` (`lt`), `arCreateHandle` (`h`) and
      `arSetPixelFormat` (`fmtStatus`). */
  predicate StepSucceeded(call: NativeCall, lt: Option<nat>, h: Option<nat>, fmtStatus: int)
  {
    match call
    case CreateLookupTable => lt.Some?
    case CreateHandle => h.Some?
    case SetPixelFormat(_) => fmtStatus >= 0
  }

  /** The pixel-format range check of `init`. */
  predicate FormatInRange(pixFmt: int)
  {
    FormatInvalid <= pixFmt <= FormatMax
  }

  datatype InitResult = InitResult(code: int, obj: HandleObject, calls: seq<NativeCall>)

  /** `PyARHandle_init`. */
  function Init(s: HandleObject, args: InitArgs, lt: Option<nat>, h: Option<nat>, fmtStatus: int): (r: InitResult)
    ensures r.code == 0 || r.code == -1
    ensures args.BadArgs? || !FormatInRange(args.pixFmt) ==> r == InitResult(-1, s, [])
    ensures args.Args? ==> r.calls <= InitSteps(args.pixFmt)
    ensures forall k :: 0 <= k < |r.calls| - 1 ==> StepSucceeded(r.calls[k], lt, h, fmtStatus)
    ensures r.code == 0 <==>
              args.Args? && r.calls == InitSteps(args.pixFmt) && StepSucceeded(r.calls[2], lt, h, fmtStatus)
    ensures r.code == -1 && r.calls != [] ==> !StepSucceeded(r.calls[|r.calls| - 1], lt, h, fmtStatus)
    ensures r.code == 0 <==> args.Args? && FormatInRange(args.pixFmt) && lt.Some? && h.Some? && fmtStatus >= 0
    ensures args.Args? && FormatInRange(args.pixFmt) ==>
              |r.calls| >= 1 && (|r.calls| < 3 ==> !StepSucceeded(r.calls[|r.calls| - 1], lt, h, fmtStatus))
    ensures CreateLookupTable in r.calls ==> r.obj.paramLT == lt
    ensures CreateHandle in r.calls ==> r.obj.handle == h
    ensures CreateLookupTable !in r.calls ==> r.obj.paramLT == s.paramLT
    ensures CreateHandle !in r.calls ==> r.obj.handle == s.handle
    ensures r.obj.attachPatt == s.attachPatt && r.obj.markers == s.markers
    ensures r.obj.markerItems == s.markerItems && r.obj.updateMarkers == s.updateMarkers
  {
    if args.BadArgs? || !FormatInRange(args.pixFmt) then InitResult(-1, s, [])
    else
      var s1 := s.(paramLT := lt);
      if lt.None? then InitResult(-1, s1, [CreateLookupTable])
      else
        var s2 := s1.(handle := h);
        if h.None? then InitResult(-1, s2, [CreateLookupTable, CreateHandle])
        else if fmtStatus < 0 then InitResult(-1, s2, InitSteps(args.pixFmt))
        else InitResult(0, s2, InitSteps(args.pixFmt))
  }

  /** The range check admits exactly the values of the pixel-format table,
      `INVALID` included. */
  lemma FormatRangeIsTable(pixFmt: int)
    ensures FormatInRange(pixFmt) <==> pixFmt in PixelFormatMap.Values
    ensures FormatInRange(PixelFormatMap["INVALID"])
  {
    ValuesAreInvalidToMax();
    NamedFormats();
  }

  // ---------------------------------------------------------------------
  // attachPatt

  /** `PyARHandle_getAttachPatt`: the attached pattern handle, or None. */
  function GetAttachPatt(s: HandleObject, c: Counts): (r: (nat, Counts))
    requires Holds(c, s.attachPatt.ptr) && Live(c, NoneId)
    ensures r.0 == (if s.attachPatt.ptr.Obj? then s.attachPatt.ptr.id else NoneId)
    ensures forall x :: RefCount(r.1, x) == RefCount(c, x) + (if x == r.0 then 1 else 0)
  {
    ReturnValue(s.attachPatt, c)
  }

  /** The value given to the `attachPatt` setter: deletion (NULL), or an
      object, with whether it is an `ARPattHandle` instance. */
  datatype SetValue = Delete | Value(obj: nat, isPattHandle: bool)

  /** The Python exception a setter raises, by message (all are TypeError). */
  datatype SetResult = SetResult(code: int, error: Option<string>, obj: HandleObject, counts: Counts)

  const NotPattHandle: string := "Value has to be ARPattHandle object"
  const DetachFailed: string := "Detaching of pattern handle failed"
  const AttachFailed: string := "Attaching of pattern handle failed"

  /** `PyARHandle_setAttachPatt`; `nativeStatus` is the result of
      `arPattDetach` or `arPattAttach`, whichever is called. */
  function SetAttachPatt(s: HandleObject, v: SetValue, nativeStatus: int, c: Counts): (r: SetResult)
    requires Holds(c, s.attachPatt.ptr)
    requires v.Value? ==> Live(c, v.obj)
    ensures r.code == 0 <==> r.error.None?
    ensures v.Value? && !v.isPattHandle ==> r == SetResult(-1, Some(NotPattHandle), s, c)
    ensures v.Delete? && nativeStatus < 0 ==> r == SetResult(-1, Some(DetachFailed), s, c)
    ensures v.Value? && v.isPattHandle && nativeStatus < 0 ==> r == SetResult(-1, Some(AttachFailed), s, c)
    ensures r.code == 0 <==> (v.Delete? || v.isPattHandle) && nativeStatus >= 0
    ensures r.code == 0 ==> r.obj == s.(attachPatt := Owner(if v.Delete? then Null else Obj(v.obj)))
    ensures r.code == 0 ==> Exchanged(c, r.counts, s.attachPatt.ptr, r.obj.attachPatt.ptr)
  {
    if v.Value? && !v.isPattHandle then SetResult(-1, Some(NotPattHandle), s, c)
    else if v.Delete? && nativeStatus < 0 then SetResult(-1, Some(DetachFailed), s, c)
    else if v.Value? && nativeStatus < 0 then SetResult(-1, Some(AttachFailed), s, c)
    else
      // `*self->attachPatt = PyObjectOwner(value, true)`: a temporary owner
      // with a new reference, assigned from, then destroyed.
      var p := if v.Delete? then Null else Obj(v.obj);
      var temp := Construct(p, true, c);
      // The temporary holds a reference of its own, so the operator as
      // written behaves as `AssignSafe` here (see `AssignmentsAreSafe`).
      var asg := AssignSafe(s.attachPatt, temp.owner, temp.counts);
      SetResult(0, None, s.(attachPatt := asg.owner), Destroy(temp.owner, asg.counts))
  }

  /** The two assignments the wrapper makes never hit the self-assignment
      defect of `operator=`: the source owner always holds a reference of
      its own, so the operator as written agrees with `AssignSafe`. */
  lemma AssignmentsAreSafe(s: HandleObject, p: Ptr, newTuple: nat, c: Counts)
    requires Holds(c, s.attachPatt.ptr) && Holds(c, p)
    requires Holds(c, s.markers.ptr)
    ensures var temp := Construct(p, true, c);
            ObjectOwner.Assign(s.attachPatt, temp.owner, temp.counts).Done?
    ensures ObjectOwner.Assign(s.markers, Owner(Obj(newTuple)), NewReference(c, newTuple)).Done?
  {
  }

  /** Setting a pattern handle and reading it back gives the same object;
      deleting it makes the getter return None (attach/detach succeeding). */
  lemma AttachThenGet(s: HandleObject, obj: nat, c: Counts)
    requires Holds(c, s.attachPatt.ptr) && Live(c, obj) && Live(c, NoneId)
    requires s.attachPatt.ptr != Obj(NoneId) && obj != NoneId
    ensures var r := SetAttachPatt(s, Value(obj, true), 0, c);
            r.code == 0 && Holds(r.counts, r.obj.attachPatt.ptr) && Live(r.counts, NoneId)
            && GetAttachPatt(r.obj, r.counts).0 == obj
    ensures var r := SetAttachPatt(s, Delete, 0, c);
            r.code == 0 && Live(r.counts, NoneId) && GetAttachPatt(r.obj, r.counts).0 == NoneId
  {
  }

  // ---------------------------------------------------------------------
  // detect and markers

  /** `get_bgl_Buffer_data`: the byte pointer of a `bgl.Buffer` source,
      null for anything else; the type cache is this function's own. */
  function BglBufferData(cache: BglCache, src: Source): (r: (Ptr, BglCache))
    ensures r.1 == IsSuitable(cache, src.typ).1
    ensures r.0 == (if IsSuitable(cache, src.typ).0 then Obj(src.bglBytes) else Null)
  {
    var (ok, cache') := IsSuitable(cache, src.typ);
    (if ok then Obj(src.bglBytes) else Null, cache')
  }

  /** Result of `detect`: the Python boolean, the object, the buffer
      cache, and the image pointer handed to `arDetectMarker` (None when it
      was not called). */
  datatype DetectResult = DetectResult(result: bool, obj: HandleObject, cache: BglCache, image: Option<Ptr>)

  /** `PyARHandle_detect` as written: the image is looked for only as a
      `bgl.Buffer`; `status` is the result of `arDetectMarker`. */
  function Detect(s: HandleObject, image: Option<Source>, cache: BglCache, status: int): (r: DetectResult)
    ensures image.None? ==> r == DetectResult(false, s, cache, None)
    ensures image.Some? ==> r.image == Some(BglBufferData(cache, image.value).0)
    ensures r.cache == if image.Some? then BglBufferData(cache, image.value).1 else cache
    ensures r.result <==> image.Some? && status >= 0
    ensures r.obj == (if r.result then s.(updateMarkers := true) else s)
  {
    match image
    case None => DetectResult(false, s, cache, None)
    case Some(src) =>
      var (data, cache') := BglBufferData(cache, src);
      if status < 0 then DetectResult(false, s, cache', Some(data))
      else DetectResult(true, s.(updateMarkers := true), cache', Some(data))
  }

  /** Any image that is not a `bgl.Buffer` (a `bytes` object, say) reaches
      the native detector as a null pointer, even when it offers the
      buffer protocol. */
  lemma DetectDropsPythonBuffers(s: HandleObject, src: Source, status: int)
    requires src.typ.name != BglBufferName && src.hasBuffer
    ensures Detect(s, Some(src), None, status).image == Some(Null)
  {
  }

  /** `detect` with the image taken through `getBufferHolder`, so that a
      buffer-protocol source reaches the detector with its data. The
      holder is released when the call returns. */
  function DetectWithHolder(s: HandleObject, image: Option<Source>, cache: BglCache, view: Option<View>,
                            status: int, c: Counts): (r: (DetectResult, Counts))
    requires image.Some? ==> Live(c, image.value.id)
    ensures image.Some? && !IsSuitable(cache, image.value.typ).0 && image.value.hasBuffer && view.Some? ==>
              r.0.image == Some(Obj(view.value.buf))
    ensures image.Some? && IsSuitable(cache, image.value.typ).0 ==>
              r.0.image == Some(Obj(image.value.bglBytes))
    ensures image.Some? && !IsSuitable(cache, image.value.typ).0 && !(image.value.hasBuffer && view.Some?) ==>
              r.0.image == Some(Null)
    ensures image.None? ==> r.0.image.None?
    ensures r.0.cache == if image.Some? then IsSuitable(cache, image.value.typ).1 else cache
    ensures r.0.result <==> image.Some? && status >= 0
    ensures r.0.obj == (if r.0.result then s.(updateMarkers := true) else s)
    ensures forall x :: RefCount(r.1, x) == RefCount(c, x)
  {
    match image
    case None => (DetectResult(false, s, cache, None), c)
    case Some(src) =>
      var d := GetBufferHolder(src, cache, view, c);
      var data := if d.holder.Some? then d.holder.value.data else Null;
      var c' := if d.holder.Some? then DestroyHolder(d.holder.value, d.counts) else d.counts;
      if status < 0 then (DetectResult(false, s, d.cache, Some(data)), c')
      else (DetectResult(true, s.(updateMarkers := true), d.cache, Some(data)), c')
  }

  /** Result of reading `markers`: the tuple returned, the object and the
      counts afterwards. */
  datatype MarkersResult = MarkersResult(tuple: nat, obj: HandleObject, counts: Counts)

  /** `PyARHandle_getMarkers`. When the flag is set, a tuple of
      `nativeCount` (`arGetMarkerNum`) entries is built (`newTuple` is what
      `PyTuple_New` returns) and replaces the cached one; otherwise the
      cached tuple is returned. */
  function GetMarkers(s: HandleObject, nativeCount: nat, newTuple: nat, c: Counts): (r: MarkersResult)
    requires Holds(c, s.markers.ptr) && s.markers.ptr.Obj?
    ensures !r.obj.updateMarkers
    ensures r.obj.handle == s.handle && r.obj.paramLT == s.paramLT && r.obj.attachPatt == s.attachPatt
    ensures s.updateMarkers ==> r.tuple == newTuple && r.obj.markers == Owner(Obj(newTuple))
    ensures s.updateMarkers ==> |r.obj.markerItems| == nativeCount
    ensures s.updateMarkers ==> forall i :: 0 <= i < nativeCount ==> r.obj.markerItems[i] == i
    ensures s.updateMarkers ==> RefCount(r.counts, newTuple) >= 2
    ensures s.updateMarkers ==>
              forall x :: RefCount(r.counts, x) ==
                            RefCount(c, x) + (if x == newTuple then 2 else 0) - (if s.markers.ptr == Obj(x) then 1 else 0)
    ensures s.updateMarkers && s.markers.ptr != Obj(newTuple) ==>
              RefCount(r.counts, s.markers.ptr.id) == RefCount(c, s.markers.ptr.id) - 1
    ensures !s.updateMarkers ==> r.obj == s && r.tuple == s.markers.ptr.id
    ensures !s.updateMarkers ==> forall x :: RefCount(r.counts, x) == RefCount(c, x) + (if x == r.tuple then 1 else 0)
  {
    if s.updateMarkers then
      // `pyMarkers` owns the new tuple; it is copied into `markers` and
      // destroyed at the end of the block.
      var rebuilt := Owner(Obj(newTuple));
      var c1 := NewReference(c, newTuple);
      var asg := AssignSafe(s.markers, rebuilt, c1);
      var items := seq(nativeCount, (i: nat) => i);
      var c2 := Destroy(rebuilt, asg.counts);
      var s' := s.(markers := rebuilt, markerItems := items, updateMarkers := false);
      MarkersResult(newTuple, s', IncRef(c2, newTuple))
    else
      MarkersResult(s.markers.ptr.id, s, IncRef(c, s.markers.ptr.id))
  }

  /** Before any detection the markers tuple is empty; after a successful
      detection it has one entry per native marker; after a failed one it
      is the tuple cached before. */
  lemma MarkersFollowDetection(emptyTuple: nat, c: Counts, image: Source, cache: BglCache, view: Option<View>,
                               status: int, nativeCount: nat, newTuple: nat)
    requires Live(c, image.id)
    ensures var (s, c1) := New(emptyTuple, c);
            GetMarkers(s, nativeCount, newTuple, c1).obj.markerItems == []
    ensures var (s, c1) := New(emptyTuple, c);
            var (d, c2) := DetectWithHolder(s, Some(image), cache, view, status, c1);
            Holds(c2, d.obj.markers.ptr) &&
            |GetMarkers(d.obj, nativeCount, newTuple, c2).obj.markerItems| == (if status >= 0 then nativeCount else 0)
  {
  }
}
