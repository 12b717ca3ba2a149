/**
  `ARParam` (Sources/ARParam.cpp): the camera parameters object. The
  Python side reads and writes the image size, reads the 3x4 projection
  matrix and the nine distortion factors, and loads a parameter file.

  Python values are the small universe `PyValue`; the native loader and
  the resize are outside the model (their results are parameters, and the
  resize is given only its effect on the size).
*/
module ARParam {
  import opened Base

  /** The Python values the getters build and the setter inspects. */
  datatype PyValue = Int(i: int) | Float(x: real) | Tuple(items: seq<PyValue>) | Other

  /** The native `ARParam` fields exposed to Python. */
  datatype Param = Param(xsize: int, ysize: int, mat: seq<seq<real>>, dist: seq<real>)

  /** The shape of the native arrays: `mat[3][4]` and `dist_factor[9]`. */
  predicate Shaped(p: Param)
  {
    |p.mat| == 3 && (forall i :: 0 <= i < 3 ==> |p.mat[i]| == 4) && |p.dist| == 9
  }

  /** `new ARParam()`: value-initialised, so every field is zero. */
  function NewParam(): (p: Param)
    ensures Shaped(p)
    ensures p.xsize == 0 && p.ysize == 0
    ensures forall i, j :: 0 <= i < 3 && 0 <= j < 4 ==> p.mat[i][j] == 0.0
    ensures forall k :: 0 <= k < 9 ==> p.dist[k] == 0.0
  {
    Param(0, 0, seq(3, _ => seq(4, _ => 0.0)), seq(9, _ => 0.0))
  }

  /** The effect of `arParamChangeSize(param, x, y, param)` on the size.
      The library also rescales the matrix and the distortion factors;
      that arithmetic is not modelled and the arrays are kept as they are. */
  function ChangeSize(p: Param, x: int, y: int): (r: Param)
    ensures r.xsize == x && r.ysize == y
  {
    p.(xsize := x, ysize := y)
  }

  /** `PyARParam_getSize`: the tuple `(xsize, ysize)`. */
  function GetSize(p: Param): (r: PyValue)
    ensures r.Tuple? && |r.items| == 2
    ensures r.items[0] == Int(p.xsize) && r.items[1] == Int(p.ysize)
  {
    Tuple([Int(p.xsize), Int(p.ysize)])
  }

  /** A value the `size` setter accepts: a tuple of exactly two ints. */
  predicate IsSizePair(v: PyValue)
  {
    v.Tuple? && |v.items| == 2 && v.items[0].Int? && v.items[1].Int?
  }

  const SizeError: string := "Tuple of two integers is required"

  /** The outcome of a setter: the return code, the TypeError message if
      one is raised, and the parameters afterwards. */
  datatype SetResult = SetResult(code: int, error: Option<string>, param: Param)

  /** `PyARParam_setSize`; `None` is deletion (a NULL value). The items are
      checked one by one, as the loop does, and the resize happens only
      when both are ints. */
  function SetSize(p: Param, value: Option<PyValue>): (r: SetResult)
    ensures r.code == 0 <==> value.Some? && IsSizePair(value.value)
    ensures r.code == 0 ==> r.error.None?
                            && r.param == ChangeSize(p, value.value.items[0].i, value.value.items[1].i)
    ensures r.code != 0 ==> r == SetResult(-1, Some(SizeError), p)
  {
    var valid := value.Some? && value.value.Tuple? && |value.value.items| == 2;
    if valid && ItemsAreInts(value.value.items, 0) then
      SetResult(0, None, ChangeSize(p, value.value.items[0].i, value.value.items[1].i))
    else
      SetResult(-1, Some(SizeError), p)
  }

  /** The setter's item loop from index `k` on: every remaining item is an
      int. */
  function ItemsAreInts(items: seq<PyValue>, k: nat): (r: bool)
    requires k <= |items|
    ensures r <==> forall j :: k <= j < |items| ==> items[j].Int?
    decreases |items| - k
  {
    if k == |items| then true
    else items[k].Int? && ItemsAreInts(items, k + 1)
  }

  /** Setting a size and reading it back gives the same two values; the
      matrix and distortion factors are left to the resize. */
  lemma SizeRoundTrip(p: Param, x: int, y: int)
    ensures var r := SetSize(p, Some(Tuple([Int(x), Int(y)])));
            r.code == 0 && GetSize(r.param) == Tuple([Int(x), Int(y)])
  {
  }

  /** Whatever the setter rejects, the parameters are unchanged, so the
      getter still reads the old size; and the getter's own output is
      always accepted back. */
  lemma SizeSetterClosedUnderGetter(p: Param, value: Option<PyValue>)
    ensures SetSize(p, value).code != 0 ==> GetSize(SetSize(p, value).param) == GetSize(p)
    ensures SetSize(p, Some(GetSize(p))).code == 0
    ensures GetSize(SetSize(p, Some(GetSize(p))).param) == GetSize(p)
    ensures SetSize(p, Some(GetSize(p))).param == p
  {
  }

  /** The row tuple `(m[i][0], …, m[i][3])`. */
  function Row(row: seq<real>): (r: PyValue)
    ensures r.Tuple? && |r.items| == |row|
    ensures forall j :: 0 <= j < |row| ==> r.items[j] == Float(row[j])
  {
    Tuple(seq(|row|, j requires 0 <= j < |row| => Float(row[j])))
  }

  /** `PyARParam_getMatrix`: three rows of four floats. */
  function GetMatrix(p: Param): (r: PyValue)
    requires Shaped(p)
    ensures r.Tuple? && |r.items| == 3
    ensures forall i :: 0 <= i < 3 ==> r.items[i].Tuple? && |r.items[i].items| == 4
    ensures forall i, j :: 0 <= i < 3 && 0 <= j < 4 ==> r.items[i].items[j] == Float(p.mat[i][j])
  {
    Tuple([Row(p.mat[0]), Row(p.mat[1]), Row(p.mat[2])])
  }

  /** `PyARParam_getDistFactor`: the nine factors in index order. */
  function GetDistFactor(p: Param): (r: PyValue)
    requires Shaped(p)
    ensures r.Tuple? && |r.items| == 9
    ensures forall k :: 0 <= k < 9 ==> r.items[k] == Float(p.dist[k])
  {
    Row(p.dist)
  }

  /** Reading a row tuple back into numbers. */
  function FloatsOf(v: PyValue): (r: Option<seq<real>>)
    ensures r.Some? <==> v.Tuple? && forall j :: 0 <= j < |v.items| ==> v.items[j].Float?
    ensures r.Some? ==> |r.value| == |v.items| && forall j :: 0 <= j < |v.items| ==> r.value[j] == v.items[j].x
  {
    if v.Tuple? && forall j :: 0 <= j < |v.items| ==> v.items[j].Float? then
      Some(seq(|v.items|, j requires 0 <= j < |v.items| => v.items[j].x))
    else None
  }

  /** The matrix and distortion tuples carry the native arrays exactly:
      reading them back gives the same numbers. */
  lemma ArraysRoundTrip(p: Param)
    requires Shaped(p)
    ensures forall i :: 0 <= i < 3 ==> FloatsOf(GetMatrix(p).items[i]) == Some(p.mat[i])
    ensures FloatsOf(GetDistFactor(p)) == Some(p.dist)
  {
    forall i | 0 <= i < 3
      ensures FloatsOf(GetMatrix(p).items[i]) == Some(p.mat[i])
    {
      var row := GetMatrix(p).items[i];
      assert FloatsOf(row).value == p.mat[i];
    }
    assert FloatsOf(GetDistFactor(p)).value == p.dist;
  }

  /** The result of `load`: the Python boolean, whether `arParamLoad` was
      called, and the parameters afterwards. */
  datatype LoadResult = LoadResult(result: bool, called: bool, param: Param)

  /** `PyARParam_load`. `fileName` is None when argument parsing fails;
      `status` and `loaded` are what `arParamLoad` returns and writes. */
  function Load(p: Param, fileName: Option<string>, status: int, loaded: Param): (r: LoadResult)
    ensures r.called <==> fileName.Some?
    ensures r.result <==> fileName.Some? && status == 0
    ensures r.param == (if r.called then loaded else p)
  {
    match fileName
    case None => LoadResult(false, false, p)
    case Some(_) => LoadResult(status == 0, true, loaded)
  }

  /** A new object's getters read the value-initialised parameters: size
      (0, 0), an all-zero matrix and all-zero distortion factors. */
  lemma NewParamReads()
    ensures GetSize(NewParam()) == Tuple([Int(0), Int(0)])
    ensures forall i :: 0 <= i < 3 ==> FloatsOf(GetMatrix(NewParam()).items[i]) == Some([0.0, 0.0, 0.0, 0.0])
    ensures FloatsOf(GetDistFactor(NewParam())) == Some(seq(9, _ => 0.0))
  {
    var p := NewParam();
    ArraysRoundTrip(p);
    forall i | 0 <= i < 3 ensures p.mat[i] == [0.0, 0.0, 0.0, 0.0] {
      assert p.mat[i] == seq(4, _ => 0.0);
    }
  }

  /** After a successful load every getter reads the loaded parameters;
      when the file name cannot be parsed every getter reads what it read
      before. */
  lemma LoadThenRead(p: Param, fileName: Option<string>, status: int, loaded: Param)
    requires Shaped(p) && Shaped(loaded)
    ensures Shaped(Load(p, fileName, status, loaded).param)
    ensures var r := Load(p, fileName, status, loaded);
            r.result ==>
              GetSize(r.param) == GetSize(loaded) && GetMatrix(r.param) == GetMatrix(loaded) &&
              GetDistFactor(r.param) == GetDistFactor(loaded)
    ensures var r := Load(p, fileName, status, loaded);
            fileName.None? ==>
              !r.result && GetSize(r.param) == GetSize(p) && GetMatrix(r.param) == GetMatrix(p) &&
              GetDistFactor(r.param) == GetDistFactor(p)
  {
  }
}
