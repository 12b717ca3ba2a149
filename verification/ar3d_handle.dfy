/**
  `AR3DHandle` (Sources/AR3DHandle.cpp): pose estimation for a detected
  square marker. ARToolKit's camera frame has y down and z forward,
  Blender's has y up and z backward; the wrapper converts between them by
  negating the second and third rows of the 3x4 transform, and returns a
  4x4 matrix with the fixed bottom row (0, 0, 0, 1).

  Matrices are sequences of rows of `real`: the conversion is sign flips
  only, which are exact in floating point.
*/
module AR3DHandle {
  import opened Base
  import ARParam

  type Matrix = seq<seq<real>>

  /** A matrix of `rows` rows of four entries. */
  predicate Rows(m: Matrix, rows: nat)
  {
    |m| == rows && forall i :: 0 <= i < rows ==> |m[i]| == 4
  }

  function Negate(row: seq<real>): (r: seq<real>)
    ensures |r| == |row| && forall j :: 0 <= j < |row| ==> r[j] == -row[j]
  {
    seq(|row|, j requires 0 <= j < |row| => -row[j])
  }

  const BottomRow: seq<real> := [0.0, 0.0, 0.0, 1.0]

  /** `buildMatrix`: row 0 as is, rows 1 and 2 negated, then the fixed
      bottom row. */
  function BuildMatrix(m: Matrix): (r: Matrix)
    requires |m| >= 3 && forall i :: 0 <= i < 3 ==> |m[i]| == 4
    ensures Rows(r, 4)
    ensures r[0] == m[0] && r[3] == BottomRow
    ensures forall i, j :: 1 <= i < 3 && 0 <= j < 4 ==> r[i][j] == -m[i][j]
  {
    [m[0], Negate(m[1]), Negate(m[2]), BottomRow]
  }

  /** The input conversion of `getTransMatSquareCont`: rows 1 and 2
      negated, rows 0 and 3 untouched. */
  function FlipInput(m: Matrix): (r: Matrix)
    requires Rows(m, 4)
    ensures Rows(r, 4)
    ensures r[0] == m[0] && r[3] == m[3]
    ensures forall i, j :: 1 <= i < 3 && 0 <= j < 4 ==> r[i][j] == -m[i][j]
  {
    m[1 := Negate(m[1])][2 := Negate(m[2])]
  }

  /** The conversion is its own inverse. */
  lemma {:induction false} FlipInvolution(m: Matrix)
    requires Rows(m, 4)
    ensures FlipInput(FlipInput(m)) == m
  {
    var f := FlipInput(FlipInput(m));
    forall i | 0 <= i < 4 ensures f[i] == m[i] {
      if i == 1 || i == 2 {
        assert |f[i]| == |m[i]|;
        forall j | 0 <= j < 4 ensures f[i][j] == m[i][j] { }
      }
    }
  }

  /** The handle object: the native 3D handle, or none. */
  datatype Handle3D = Handle3D(handle: Option<nat>)

  /** `PyAR3DHandle_new`: no native handle. */
  function New(): (r: Handle3D)
    ensures r.handle.None?
  {
    Handle3D(None)
  }

  /** `PyAR3DHandle_init`. `param` is None when argument parsing fails
      (the argument must be an ARParam); `created` is what
      `ar3DCreateHandle` returns, which is called only after parsing. */
  function Init(s: Handle3D, param: Option<ARParam.Param>, created: Option<nat>): (r: (int, Handle3D))
    ensures r.0 == 0 <==> param.Some? && created.Some?
    ensures r.0 != 0 ==> r.0 == -1
    ensures param.None? ==> r.1 == s
    ensures param.Some? ==> r.1.handle == created
  {
    if param.None? then (-1, s)
    else if created.None? then (-1, Handle3D(created))
    else (0, Handle3D(created))
  }

  /** On a new object, `init` reports success exactly when it has stored a
      native handle; a parse failure leaves the object new. */
  lemma InitNewHandle(param: Option<ARParam.Param>, created: Option<nat>)
    ensures param.Some? ==> (Init(New(), param, created).0 == 0 <==> Init(New(), param, created).1.handle.Some?)
    ensures param.None? ==> Init(New(), param, created).1 == New()
  {
  }

  /** What a native pose solver produces: the fit error and the 3x4
      transform it writes. */
  datatype Solved = Solved(err: real, mat: Matrix)

  /** The arguments after `PyArg_ParseTuple`: a marker, its width, and for
      the continuing variant the previous 4x4 matrix. */
  datatype SquareArgs = SquareArgs(marker: nat, width: real)
  datatype ContArgs = ContArgs(marker: nat, width: real, previous: Matrix)

  /** `PyAR3DHandle_getTransMatSquare`; `solved` is what
      `arGetTransMatSquare` produces for this marker and width. None when
      parsing fails. */
  function GetTransMatSquare(args: Option<SquareArgs>, solved: Solved): (r: Option<Matrix>)
    requires Rows(solved.mat, 3)
    ensures args.None? ==> r.None?
    ensures args.Some? ==> r.Some? && Rows(r.value, 4)
    ensures args.Some? ==> r.value[0] == solved.mat[0] && r.value[3] == BottomRow
    ensures args.Some? ==> forall i, j :: 1 <= i < 3 && 0 <= j < 4 ==> r.value[i][j] == -solved.mat[i][j]
  {
    match args
    case None => None
    case Some(_) => Some(BuildMatrix(solved.mat))
  }

  /** A call of the continuing variant: the transform handed to
      `arGetTransMatSquareCont` (None when it is not called) and the
      matrix returned to Python (None for Python's None). */
  datatype ContCall = ContCall(input: Option<Matrix>, output: Option<Matrix>)

  /** `PyAR3DHandle_getTransMatSquareCont`; `solved` is what
      `arGetTransMatSquareCont` produces from the converted input. */
  function GetTransMatSquareCont(args: Option<ContArgs>, solved: Solved): (r: ContCall)
    requires args.Some? ==> Rows(args.value.previous, 4)
    requires Rows(solved.mat, 3)
    ensures args.None? ==> r == ContCall(None, None)
    ensures args.Some? ==> r.input == Some(FlipInput(args.value.previous))
    ensures args.Some? ==> r.output == Some(BuildMatrix(solved.mat))
  {
    match args
    case None => ContCall(None, None)
    case Some(a) => ContCall(Some(FlipInput(a.previous)), Some(BuildMatrix(solved.mat)))
  }

  /** The fit error never reaches the caller: two solver outcomes with the
      same transform give the same result. */
  lemma ErrorDiscarded(sq: Option<SquareArgs>, args: Option<ContArgs>, s1: Solved, s2: Solved)
    requires args.Some? ==> Rows(args.value.previous, 4)
    requires Rows(s1.mat, 3) && s2.mat == s1.mat
    ensures GetTransMatSquareCont(args, s1) == GetTransMatSquareCont(args, s2)
    ensures GetTransMatSquare(sq, s1) == GetTransMatSquare(sq, s2)
  {
  }

  /** The two conversions are inverse: if the solver hands back the top
      three rows of the transform it was given, the caller gets its own
      matrix back, provided its bottom row is the fixed one. */
  lemma {:induction false} ContRoundTrip(a: ContArgs, err: real)
    requires Rows(a.previous, 4) && a.previous[3] == BottomRow
    ensures GetTransMatSquareCont(Some(a), Solved(err, FlipInput(a.previous)[..3])).output == Some(a.previous)
  {
    var f := FlipInput(a.previous);
    var b := BuildMatrix(f[..3]);
    forall i | 0 <= i < 4 ensures b[i] == a.previous[i] {
      if i == 1 || i == 2 {
        assert |b[i]| == |a.previous[i]|;
        forall j | 0 <= j < 4 ensures b[i][j] == a.previous[i][j] { }
      }
    }
    assert b == a.previous;
  }
}
