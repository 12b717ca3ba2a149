# ARTKBlender bookkeeping, modelled in Dafny

ARTKBlender exposes ARToolKit to Blender's Python as a handful of extension
types: `ARParam`, `ARHandle`, `AR3DHandle`, `ARPattHandle`, `ARMarkerInfo` and
the `ARPixelFormat` enumeration. Most of it is glue. Under the glue sit a few
pieces of stateful bookkeeping, and this project models them and proves their
contracts:

- **The self-registering type list** (`PyTypeRegistration`). It is an
  intrusive doubly-linked list that each type's static registration object
  pushes itself onto. Module initialisation walks it twice: first to prepare
  every type, stopping at the first failure, then to add every type to the
  module. The enumeration subclass installs name/value pairs into the type's
  dictionary. The only concrete enumeration is the pixel-format table.
- **`PyObjectOwner`**, the RAII owner of a Python reference. Its constructor,
  destructor, copy, move, assignment and `returnValue` are modelled over an
  explicit map of reference counts.
- **The `ARHandle` wrapper state.** This covers:
  - the allocation defaults;
  - the ordered, fallible steps of `init`;
  - the attached-pattern cache;
  - `detect`;
  - the lazily rebuilt markers tuple.
- **Image-buffer dispatch** (`getBufferHolder` and its `isSuitable` checks).
  This includes the cached `bgl.Buffer` type.
- **Small conversions:**
  - the `ARParam.size` validator with its getter;
  - the shapes of `matrix` and `distFactor`;
  - the `load` result;
  - the `AR3DHandle` coordinate flip between ARToolKit's and Blender's camera
    frames.

### How calls outside the model are handled

ARToolKit calls and CPython calls outside the model are not modelled. Their
outcomes are parameters of the functions that make them, so each contract
holds whatever those calls return:
- success flags;
- returned handles;
- `PyType_Ready` results;
- the object `PyTuple_New` returns;
- the buffer a `PyObject_GetBuffer` call yields.

### Representation

Objects are natural-number ids. Reference counts are a `map<nat, nat>`
(`Base.Counts`). Every wrapper or owner state is an immutable record, and
every operation is a function from state to state or a method that
touches no heap.

### Modules

| module | file | models |
|---|---|---|
| `Base` | base.dfy | options, object pointers, reference-count primitives |
| `ObjectOwner` | object_owner.dfy | Sources/PyObjectHelper.h |
| `TypeRegistry` | type_registry.dfy | Sources/PyTypeRegistration.cpp |
| `PixelFormat` | pixel_format.dfy | Sources/ARPixelFormat.cpp |
| `ModuleInit` | module_init.dfy | Sources/ARTKBlenderModule.cpp |
| `BufferHolder` | buffer_holder.dfy | Sources/BlenderUtils.cpp |
| `ARHandle` | ar_handle.dfy | Sources/ARHandle.cpp |
| `ARParam` | ar_param.dfy | Sources/ARParam.cpp |
| `AR3DHandle` | ar3d_handle.dfy | Sources/AR3DHandle.cpp |

### Where the model follows the code over other descriptions

- The registry is a push-front list. A registration made later comes earlier
  in the list, so preparation and adding run in reverse registration order.
  UnitTests/PyTypeRegistrationTest.cpp expects first-registered-first order;
  the model follows the list in Sources/PyTypeRegistration.cpp.
- Sources/ARTKBlenderModule.cpp calls `GetAllReady` and `AddAllTypes`, while
  Sources/PyTypeRegistration.cpp defines `getAllReady` and `addAllTypes`. The
  model treats them as the same functions.
- Sources/BlenderUtils.cpp does not compile as shown. It:
  - uses an undeclared `obj`;
  - is missing parentheses;
  - names `ImageBufferObject`;
  - casts the Blender buffer's bytes with `reinterpret_cast<ARUint8>`, a byte rather than a pointer (line 40);
  - passes the `Py_buffer` to `PyBuffer_Release` by value rather than by address (line 77).

  The model gives it its evident reading:
  - `isSuitable` inspects the source it is given;
  - the Python holder derives from `ImageBufferHolder`;
  - the Blender holder's data is the buffer's byte pointer;
  - the destructor releases the holder's own view.

## Model

| member | source | states |
|---|---|---|
| ObjectOwner.Construct | Sources/PyObjectHelper.h:86-90 | the owner holds the given pointer; without incRef no count changes, with incRef a non-null object gains exactly one reference |
| ObjectOwner.Destroy | Sources/PyObjectHelper.h:95-99 | a null owner changes no count; otherwise exactly one reference to the held object is released |
| ObjectOwner.Copy | Sources/PyObjectHelper.h:105-109 | the copy shares the object and adds exactly one reference to it |
| ObjectOwner.Move | Sources/PyObjectHelper.h:115-118 | the pointer moves to the new owner, the source is nulled, and no count changes |
| ObjectOwner.Assign | Sources/PyObjectHelper.h:125-133 | the operator as written: it frees the object early exactly when an owner is assigned to the sole owner of the same object; otherwise the destination takes the source's object, one reference moves from the old object to the new one, and nothing else changes |
| ObjectOwner.SelfAssignLastReference | Sources/PyObjectHelper.h:125-133 | assigning the only owner of an object to itself deallocates the object before taking the new reference |
| ObjectOwner.AssignSafe | Sources/PyObjectHelper.h:125-133 | the corrected assignment (acquire, then release) exchanges one reference for every pair of owners; self-assignment changes no count |
| ObjectOwner.AssignAgrees | Sources/PyObjectHelper.h:125-133 | wherever the operator as written does not free early, its owner and every count equal the corrected assignment's |
| ObjectOwner.IsNull | Sources/PyObjectHelper.h:148-151 | true exactly when the owner holds the null pointer |
| ObjectOwner.NullOwnerPartners | Sources/PyObjectHelper.h:95-99 | an owner is null exactly when its destruction changes no reference count, and a moved-from owner is null |
| ObjectOwner.ReturnValue | Sources/PyObjectHelper.h:157-163 | returns None for a null owner, otherwise the held object; the returned object gains exactly one reference |
| ObjectOwner.NewOwner | Sources/PyObjectHelper.h:86-90 | a new owner keeps every object's owners within its reference count |
| ObjectOwner.DropOwner | Sources/PyObjectHelper.h:95-99 | destroying an owner keeps every object's owners within its reference count |
| ObjectOwner.CopyOwner | Sources/PyObjectHelper.h:105-109 | copying an owner keeps the accounting invariant |
| ObjectOwner.MoveOwner | Sources/PyObjectHelper.h:115-118 | moving nulls the source slot, appends an owner of the object, and keeps the accounting invariant |
| ObjectOwner.AssignOwner | Sources/PyObjectHelper.h:125-133 | among accounted owners, the operator as written fails exactly on self-assignment of a sole owner; otherwise it keeps the accounting invariant |
| ObjectOwner.AssignOwnerSafe | Sources/PyObjectHelper.h:125-133 | the corrected assignment keeps the accounting invariant for every pair of owners, self-assignment included |
| ObjectOwner.ReturnOwned | Sources/PyObjectHelper.h:157-163 | after `returnValue` the caller's reference is accounted for beyond the owners |
| TypeRegistry.ValidLinksAgree | Sources/PyTypeRegistration.cpp:35-41 | in a consistent list, following `next` and then `prev` returns to the same node, and conversely |
| TypeRegistry.Register | Sources/PyTypeRegistration.cpp:34-42 | the new registration becomes the head with the old head as its successor; the old head's `prev` points to it, and no other node changes |
| TypeRegistry.RegisterValid | Sources/PyTypeRegistration.cpp:34-42 | a registration pushed onto a consistent list gives a consistent list, with the new node first |
| TypeRegistry.RegisterAllValid | Sources/PyTypeRegistration.cpp:30-42 | registrations made in turn on an empty list give a consistent list in reverse registration order |
| TypeRegistry.Unregister | Sources/PyTypeRegistration.cpp:45-55 | the destructor removes exactly that node and moves the head to its successor when it was the head |
| TypeRegistry.UnregisterValid | Sources/PyTypeRegistration.cpp:45-55 | unlinking any listed node of a consistent list leaves a consistent list of the others, in their previous order |
| TypeRegistry.ValidUnlinkable | Sources/PyTypeRegistration.cpp:45-55 | every listed node of a consistent list meets the destructor's assumptions about its neighbours |
| TypeRegistry.PrepareInOrder | Sources/PyTypeRegistration.cpp:71-77 | preparation succeeds exactly when every entry is ready; it prepares a prefix of the list that ends at the first failure |
| TypeRegistry.GetAllReady | Sources/PyTypeRegistration.cpp:71-77 | walking the links prepares entries in list order, up to and including the first failure, and returns true exactly when every entry is ready |
| TypeRegistry.PreparedIsReference | Sources/PyTypeRegistration.cpp:71-77 | any verdict and prepared prefix with the properties the walk guarantees are exactly the reference preparation's, so the walk and the reference definition agree on every list |
| TypeRegistry.PrepareStopsAt | Sources/PyTypeRegistration.cpp:73-75 | the entries prepared are exactly those up to the first failing one; no entry after it is prepared |
| TypeRegistry.AddTypesSpec | Sources/PyTypeRegistration.cpp:64-68 | adding types puts every entry's name into the module; each name maps to the last entry of that name, and other attributes are kept |
| TypeRegistry.AddAllTypes | Sources/PyTypeRegistration.cpp:80-84 | every registered entry is added exactly once, in list order, with the attribute contents that follow |
| TypeRegistry.InstallValues | Sources/PyTypeRegistration.cpp:101-112 | the verdict is true exactly when no name is already in the dictionary; on success every (name, value) pair is present; the earlier entries are always kept and every new key is a listed name with its value |
| TypeRegistry.InstallStopsAtClash | Sources/PyTypeRegistration.cpp:104-108 | installation stops false at the first name already in the dictionary: exactly the names before it are added, none after it |
| TypeRegistry.EnumGetReady | Sources/PyTypeRegistration.cpp:95-113 | a failed base preparation returns false with the dictionary untouched; otherwise it succeeds exactly when no name clashes, and then installs every pair; the existing entries are always kept and every new key is a constant of the enumeration with its value |
| TypeRegistry.EnumStopsAtClash | Sources/PyTypeRegistration.cpp:101-112 | once the type is ready, preparation fails at the first constant whose name the dictionary already holds, with exactly the constants before it added |
| PixelFormat.Registration | Sources/ARPixelFormat.cpp:64 | the pixel-format table is registered as an enumeration named "ARPixelFormat" |
| PixelFormat.TableOrderEnumerates | Sources/ARPixelFormat.cpp:57-61 | the 16 names in table order map to -1, 0, …, 14 |
| PixelFormat.SixteenNames | Sources/ARPixelFormat.cpp:57-61 | the table has exactly 16 names |
| PixelFormat.ValuesAreInvalidToMax | Sources/ARPixelFormat.cpp:58-61 | the values are exactly the integers -1 to 14, each used by one name |
| PixelFormat.NamedFormats | Sources/ARPixelFormat.cpp:58-59 | INVALID = -1 is the smallest value; RGB = 0, RGBA = 2, MONO = 5, and NV21 is the maximum |
| PixelFormat.PreparingInstallsTable | Sources/ARPixelFormat.cpp:64 | preparing the registration on a dictionary free of its names installs every name/value pair of the table |
| ModuleInit.Init | Sources/ARTKBlenderModule.cpp:47-62 | no module unless every type was prepared and creation succeeded; failure adds nothing; on success the created module is returned, with every registered type added once, in list order, each name bound to the type object of its last registration |
| BufferHolder.IsSuitable | Sources/BlenderUtils.cpp:49-61 | with no cached type, a type is accepted and cached exactly when it is named "bgl.Buffer"; once cached, acceptance is identity with the cached type |
| BufferHolder.CacheIsFirstBgl | Sources/BlenderUtils.cpp:52-58 | over any history, the cache holds the first "bgl.Buffer" type ever seen and never changes afterwards |
| BufferHolder.AcceptedAfterHistory | Sources/BlenderUtils.cpp:52-60 | after any history, a type is accepted exactly when it is the first "bgl.Buffer" type seen, or is named "bgl.Buffer" if none was seen yet |
| BufferHolder.NewImageHolder | Sources/BlenderUtils.cpp:28-30 | a holder takes one reference to its source and starts with null data and size 0 |
| BufferHolder.NewBlenderHolder | Sources/BlenderUtils.cpp:36-42 | a Blender holder points at the buffer's bytes, keeps size 0, holds no buffer view and takes one reference to its source |
| BufferHolder.BlenderHolderLifetime | Sources/BlenderUtils.cpp:28-45 | a Blender holder keeps exactly one reference to its source, and destroying it restores every count |
| BufferHolder.NewPythonHolder | Sources/BlenderUtils.cpp:64-73 | a successful buffer request gives the data and size and a second reference to the source held by the buffer view; a failed one leaves null, 0 and only the owner's reference |
| BufferHolder.DestroyHolder | Sources/BlenderUtils.cpp:75-78 | destroying a holder releases the source owner's reference and, for a Python holder, the buffer view's reference |
| BufferHolder.HolderLifetime | Sources/BlenderUtils.cpp:64-78 | a Python holder keeps one reference to its source, two while it holds a buffer view, and destroying it restores every count |
| BufferHolder.GetBufferHolder | Sources/BlenderUtils.cpp:86-96 | a Blender buffer is tried first, then the Python buffer protocol, otherwise nothing and no count changes; a returned holder's references are all counted, one on its source, two while it holds a buffer view |
| ARHandle.New | Sources/ARHandle.cpp:37-50 | a new object has no handle and no lookup table, no attached pattern, an empty markers tuple it owns, and the update flag clear |
| ARHandle.Init | Sources/ARHandle.cpp:66-94 | a parse failure or out-of-range pixel format gives -1 before any native call; otherwise the three native steps run in order up to and including the first failing one; 0 exactly when the arguments parse, the format is in range and all three native steps succeed; the lookup table and handle fields change only when their native step was called |
| ARHandle.FormatRangeIsTable | Sources/ARHandle.cpp:76-77 | the accepted pixel formats are exactly the enumeration's values, INVALID included |
| ARHandle.GetAttachPatt | Sources/ARHandle.cpp:104-107 | returns the attached pattern handle, or None, with one new reference |
| ARHandle.SetAttachPatt | Sources/ARHandle.cpp:110-139 | a non-pattern value raises the TypeError and changes nothing; a failed detach or attach returns -1 and changes nothing; success caches the new value (or nothing, for deletion) and moves one reference |
| ARHandle.AssignmentsAreSafe | Sources/ARHandle.cpp:136 | the wrapper's owner assignments never hit the self-assignment defect |
| ARHandle.AttachThenGet | UnitTests/Python/ARHandleTest.py:46-55 | after a successful set the getter returns the same object; after deletion it returns None |
| ARHandle.BglBufferData | Sources/ARHandle.cpp:171-187 | a `bgl.Buffer` yields its byte pointer, anything else a null pointer, using a type cache with the same rules as `isSuitable` |
| ARHandle.Detect | Sources/ARHandle.cpp:190-208 | the code as written: the image reaches the detector only as a `bgl.Buffer` pointer; True and the update flag exactly when parsing and detection succeed; the `bgl.Buffer` type cache is updated as `get_bgl_Buffer_data` does |
| ARHandle.DetectDropsPythonBuffers | Sources/ARHandle.cpp:196-198 | an image that is not a `bgl.Buffer` reaches the detector as a null pointer, even when it offers the buffer protocol |
| ARHandle.DetectWithHolder | Sources/ARHandle.cpp:190-208 | the corrected detection: a buffer-protocol image reaches the detector with its data; a source neither accepted as `bgl.Buffer` nor giving a buffer view reaches it as null; the type cache is updated as `isSuitable` does; flag and result are as in the code, and every count is restored |
| ARHandle.GetMarkers | Sources/ARHandle.cpp:142-168 | with the flag set, the tuple is rebuilt with one entry per native marker, entry i for marker i, and the flag is cleared; the rebuilt tuple gains two references (the cached owner's and the caller's), the old tuple loses one, and no other count changes. With the flag clear, the cached tuple is returned and gains only the caller's reference |
| ARHandle.MarkersFollowDetection | UnitTests/Python/ARHandleTest.py:84-91 | before any detection the markers tuple is empty; after a detection it has the native count if detection succeeded, otherwise it stays empty |
| ARParam.NewParam | Sources/ARParam.cpp:37 | new parameters are all zero, with a 3x4 matrix and 9 distortion factors |
| ARParam.GetSize | Sources/ARParam.cpp:52-55 | the getter returns the pair (xsize, ysize) |
| ARParam.SetSize | Sources/ARParam.cpp:58-87 | accepted exactly for a present tuple of two ints, resizing to (first, second) and returning 0; anything else gives -1, the TypeError message, and no change |
| ARParam.ItemsAreInts | Sources/ARParam.cpp:66-73 | the item loop succeeds exactly when every remaining item is an int |
| ARParam.SizeRoundTrip | UnitTests/Python/ARParamTest.py:22-25 | setting (x, y) and reading the size gives (x, y) back |
| ARParam.SizeSetterClosedUnderGetter | Sources/ARParam.cpp:52-87 | a rejected value leaves the readable size unchanged; writing back what the getter returned is accepted and reads back the same size (and, in the model, leaves the parameters equal) |
| ARParam.GetMatrix | Sources/ARParam.cpp:90-96 | `matrix` is three rows of four floats, in row-major order |
| ARParam.GetDistFactor | Sources/ARParam.cpp:99-105 | `distFactor` is the nine factors in index order |
| ARParam.ArraysRoundTrip | Sources/ARParam.cpp:90-105 | reading the `matrix` rows and the `distFactor` tuple back gives the native arrays exactly |
| ARParam.Load | Sources/ARParam.cpp:108-117 | the loader is called exactly when the file name parses; the result is True exactly when it is called and returns 0 |
| ARParam.NewParamReads | Sources/ARParam.cpp:37 | a new object's getters read size (0, 0), an all-zero matrix and all-zero distortion factors |
| ARParam.LoadThenRead | Sources/ARParam.cpp:108-117 | after a successful load every getter reads the loaded parameters; after a parse failure every getter reads what it read before |
| AR3DHandle.BuildMatrix | Sources/AR3DHandle.cpp:71-77 | the output keeps row 0, negates every entry of rows 1 and 2, and ends with the row (0, 0, 0, 1) |
| AR3DHandle.FlipInput | Sources/AR3DHandle.cpp:108-111 | the input conversion negates rows 1 and 2 and keeps rows 0 and 3 |
| AR3DHandle.FlipInvolution | Sources/AR3DHandle.cpp:108-111 | converting twice gives the original matrix |
| AR3DHandle.New | Sources/AR3DHandle.cpp:33-42 | a new object has no native handle |
| AR3DHandle.Init | Sources/AR3DHandle.cpp:54-68 | -1 on a parse failure or when handle creation yields null, 0 otherwise; the handle is stored once parsing succeeds |
| AR3DHandle.InitNewHandle | Sources/AR3DHandle.cpp:33-68 | on a new object, `init` succeeds exactly when it stores a native handle, and a parse failure leaves the object new |
| AR3DHandle.GetTransMatSquare | Sources/AR3DHandle.cpp:80-94 | a parse failure gives None; otherwise the solver's transform converted to Blender's frame |
| AR3DHandle.GetTransMatSquareCont | Sources/AR3DHandle.cpp:97-118 | a parse failure gives None and no native call; otherwise the solver gets the converted previous matrix, and its transform is converted back |
| AR3DHandle.ErrorDiscarded | Sources/AR3DHandle.cpp:90-117 | for both `getTransMatSquare` and `getTransMatSquareCont`, whatever the arguments, the result depends only on the transform the solver writes, not on its fit error |
| AR3DHandle.ContRoundTrip | Sources/AR3DHandle.cpp:108-117 | if the solver returns the top three rows it was given, the caller gets back its own matrix (with the fixed bottom row) |

## Left out

- The ARToolKit library is not part of this model. Its effects are parameters:
  - lookup-table and handle creation;
  - detection and marker counts;
  - pose solving;
  - parameter loading;
  - pattern attach and detach.
- ARParam.ChangeSize: states only the new size. The rescaling of the matrix and distortion factors by `arParamChangeSize` is vision arithmetic and is not modelled; the model keeps the arrays as they were.
- CPython internals are reduced to their outcomes (argument parsing, `Py_BuildValue`, `PyType_Ready`, the dictionary, the buffer protocol). `PyModule_AddObject` is modelled as always adding its name. Failures of `PyModule_AddObject`, `PyUnicode_FromString`, `PyLong_FromLong`, `PyDict_SetItem`, `PyTuple_New` and `tp_alloc` are not modelled. A failed add would leave its name out of the module, and Sources/PyTypeRegistration.cpp:67 ignores that result.
- Reference counts are modelled only where a `PyObjectOwner` or a holder changes them. The counts of type objects added by `addType`, of marker-info objects, of `Py_True`/`Py_False` (returned without an incref in Sources/ARParam.cpp:113-116) and of the `ARMarkerInfo` entries are left out.
- ARParam.SizeSetterClosedUnderGetter: "writing back the getter's size leaves the parameters equal" holds of the model only. It rests on `ARParam.ChangeSize` keeping the arrays. `arParamChangeSize` rescales them by the size ratio, which is 0/0 for the value-initialised size (0, 0). The part about the program is that the write is accepted and the size reads back the same.
- ARParam.SetSize: the `long` to `int` narrowing of the size values is not modelled; sizes are unbounded integers.
- ARHandle.GetMarkers: a tuple entry is modelled as the index of the native marker it refers to. An `ARMarkerInfo` points into a native array that the next detection overwrites, and that lifetime is not modelled.
- Deallocation functions (`PyARHandle_dealloc`, `PyARParam_dealloc`, `PyAR3DHandle_dealloc`) are not modelled beyond the references owners give back. `PyBuffer_Release` is modelled only as giving back the buffer view's reference to its source; any other release work of the exporter is not modelled.
- ARParam.LoadThenRead: does not say what the getters read after `arParamLoad` fails. What the library writes on failure is a parameter of `ARParam.Load`, because the library is not part of this model.
- The `pixelFormat` getter of `ARHandle` reads the native handle and is not modelled.
- Sources/ARMarkerInfo.cpp and Sources/ARPattHandle.cpp only forward to ARToolKit and are not part of this model.
- The order of static initialisation across translation units decides the registration order. It is an input, the sequence of registrations.
- Repeated `init` on the same `ARHandle` overwrites the lookup table and handle without freeing them, and repeated `init` on the same `AR3DHandle` overwrites its handle the same way (Sources/AR3DHandle.cpp:63). The model only overwrites the fields.
- The root-level ARTKBlenderModule.cpp stub and the Python test harness are not modelled.

## Findings

| source | as written | input that shows it | evidently intended | confidence | as-written member | corrected member |
|---|---|---|---|---|---|---|
| Sources/PyObjectHelper.h:125-133 | `operator=` releases the old reference before taking the new one | an owner that is the only reference to its object assigned to itself: the release deallocates the object, then the add touches freed memory | take the new reference before releasing the old one, so self-assignment is harmless | high; not executed | ObjectOwner.Assign, ObjectOwner.SelfAssignLastReference | ObjectOwner.AssignSafe, ObjectOwner.AssignOwnerSafe |
| Sources/ARHandle.cpp:196-198 | `detect` looks for the image only as a `bgl.Buffer` and passes a null pointer otherwise | a `bytes` image, as UnitTests/Python/ARHandleTest.py:81-91 passes to `detect`: the detector gets a null pointer | take the image data through `getBufferHolder`, which also accepts the Python buffer protocol | medium; not executed | ARHandle.Detect, ARHandle.DetectDropsPythonBuffers | ARHandle.DetectWithHolder |
