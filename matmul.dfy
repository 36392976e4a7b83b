/** MatMul: `result_dim` and `resolve` decide the output shape from the two
    operands' extents; `print` emits a triple loop (a quadruple one for a
    rank-4 left operand) that resets and then accumulates every output cell.
    A second extent of 0 is how the generator marks an operand as a vector. */
module MatMul {
  import opened Tensors

  /** The three extents `result_dim` reports; `channels` stays 0 unless the
      left operand has rank 4. */
  datatype Extents = Extents(channels: int, rows: int, cols: int)

  /** `result_dim`. For two matrices the product of an `A0 x A1` by a
      `B0 x B1` matrix is `A0 x B1`, taken per channel for a rank-4 left
      operand; a left vector gives one row when its length is `B0`, a right
      vector one column when its length is `A1`; two vectors are refused. */
  function ResultDim(a: seq<int>, b: seq<int>): (r: Result<Extents>)
    requires |a| >= 2 && |b| >= 2
    ensures r.Failure? <==> a[1] == 0 && b[1] == 0
    ensures r.Failure? ==> r.error == TwoVectors
    ensures a[1] != 0 && b[1] != 0 && |a| == 4 ==> r == Success(Extents(a[1], a[2], b[1]))
    ensures a[1] != 0 && b[1] != 0 && |a| != 4 ==> r == Success(Extents(0, a[0], b[1]))
    ensures a[1] == 0 && b[1] != 0 ==>
      r == Success(Extents(0, if a[0] == b[0] then 1 else a[0], b[1]))
    ensures a[1] != 0 && b[1] == 0 ==>
      r == Success(Extents(0, a[0], if a[1] == b[0] then 1 else b[0]))
  {
    if a[1] != 0 && b[1] != 0 then
      if |a| == 4 then Success(Extents(a[1], a[2], b[1]))
      else Success(Extents(0, a[0], b[1]))
    else if a[1] == 0 && b[1] == 0 then Failure(TwoVectors)
    else if a[1] == 0 then
      Success(Extents(0, if a[0] == b[0] then 1 else a[0], b[1]))
    else
      Success(Extents(0, a[0], if a[1] == b[0] then 1 else b[0]))
  }

  /** `resolve`: both operands must pass the numeric type constraint (A is
      checked first); the output `Y` is `[rows, cols]`, or `[1, channels,
      rows, cols]` when `result_dim` reports channels, with A's element type.
      The type constraint lives outside this file and is a parameter here. */
  function Resolve(A: Tensor, B: Tensor, numeric: DType -> bool): (r: Result<Tensor>)
    requires |A.dims| >= 2 && |B.dims| >= 2
    ensures r.Success? <==> numeric(A.dtype) && numeric(B.dtype) && !(A.dims[1] == 0 && B.dims[1] == 0)
    ensures !numeric(A.dtype) ==> r == Failure(TypeConstraint(0))
    ensures numeric(A.dtype) && !numeric(B.dtype) ==> r == Failure(TypeConstraint(1))
    ensures r.Success? ==>
      && r.value.dtype == A.dtype
      && var e := ResultDim(A.dims, B.dims).value;
         r.value.dims == if e.channels == 0 then [e.rows, e.cols] else [1, e.channels, e.rows, e.cols]
  {
    if !numeric(A.dtype) then Failure(TypeConstraint(0))
    else if !numeric(B.dtype) then Failure(TypeConstraint(1))
    else
      var e :- ResultDim(A.dims, B.dims);
      if e.channels == 0 then Success(Tensor([e.rows, e.cols], A.dtype))
      else Success(Tensor([1, e.channels, e.rows, e.cols], A.dtype))
  }

  /** The loop nest `print` emits, with its trip counts. */
  datatype Loops =
    | Loops2D(rows: int, cols: int, inner: int)
    | Loops4D(channels: int, rows: int, cols: int, inner: int)

  /** An inner extent of 0 (a left vector) is run as 1. */
  function Promote(inner: int): int
  {
    if inner == 0 then 1 else inner
  }

  /** `print`'s choice of loop nest: only ranks 2 and 4 of A have one, and the
      (promoted) inner extent of A must be B's first extent. */
  function PrintPlan(a: seq<int>, b: seq<int>): (r: Result<Loops>)
    requires |b| >= 2
    ensures r.Success? <==> (|a| == 2 || |a| == 4) && Promote(a[|a| - 1]) == b[0]
    ensures |a| != 2 && |a| != 4 ==> r == Failure(UnsupportedRank)
    ensures (|a| == 2 || |a| == 4) && Promote(a[|a| - 1]) != b[0] ==> r == Failure(InnerMismatch)
    ensures r.Success? ==> r.value.inner == b[0] != 0 && r.value.cols == b[1]
    ensures r.Success? && |a| == 2 ==> r.value == Loops2D(a[0], b[1], b[0])
    ensures r.Success? && |a| == 4 ==> r.value == Loops4D(a[1], a[2], b[1], b[0])
  {
    if |a| == 2 then
      var inner := Promote(a[1]);
      if inner != b[0] then Failure(InnerMismatch) else Success(Loops2D(a[0], b[1], inner))
    else if |a| == 4 then
      var inner := Promote(a[3]);
      if inner != b[0] then Failure(InnerMismatch) else Success(Loops4D(a[1], a[2], b[1], inner))
    else Failure(UnsupportedRank)
  }

  /** For two matrices the loop nest covers exactly the resolved output:
      `[rows, cols]`, or `[1, channels, rows, cols]` for a rank-4 left operand. */
  lemma LoopsCoverOutput(A: Tensor, B: Tensor, numeric: DType -> bool)
    requires |A.dims| >= 2 && |B.dims| >= 2 && A.dims[1] != 0 && B.dims[1] != 0
    requires Resolve(A, B, numeric).Success? && PrintPlan(A.dims, B.dims).Success?
    ensures PrintPlan(A.dims, B.dims).value.Loops2D? ==>
      Resolve(A, B, numeric).value.dims
        == [PrintPlan(A.dims, B.dims).value.rows, PrintPlan(A.dims, B.dims).value.cols]
    ensures PrintPlan(A.dims, B.dims).value.Loops4D? ==>
      Resolve(A, B, numeric).value.dims
        == [1, PrintPlan(A.dims, B.dims).value.channels,
            PrintPlan(A.dims, B.dims).value.rows, PrintPlan(A.dims, B.dims).value.cols]
  {
  }

  /** A right vector is not handled by `print`: `resolve` gives `Y` one
      column, but the emitted loop runs over `B[1] = 0` columns and leaves it
      unwritten. */
  lemma RightVectorLeftUnwritten(A: Tensor, B: Tensor, numeric: DType -> bool)
    requires |A.dims| == 2 && |B.dims| >= 2 && A.dims[1] != 0 && B.dims[1] == 0
    requires numeric(A.dtype) && numeric(B.dtype) && PrintPlan(A.dims, B.dims).Success?
    ensures Resolve(A, B, numeric) == Success(Tensor([A.dims[0], 1], A.dtype))
    ensures PrintPlan(A.dims, B.dims).value.cols == 0
  {
  }

  /** A `2 x 3` by `4 x 5` product is refused by `print`, although `resolve`
      accepts it as a `2 x 5` output. */
  lemma MismatchFoundOnlyByPrint(numeric: DType -> bool)
    requires numeric(Float)
    ensures Resolve(Tensor([2, 3], Float), Tensor([4, 5], Float), numeric) == Success(Tensor([2, 5], Float))
    ensures PrintPlan([2, 3], [4, 5]) == Failure(InnerMismatch)
  {
  }

  // ------------------------------------------------------ the emitted loops

  /** Reference meaning of one output cell: the sum over `i < n` of
      `A[r][i] * B[i][c]`. */
  function Dot(A: array2<int>, B: array2<int>, r: int, c: int, n: nat): int
    requires 0 <= r < A.Length0 && n <= A.Length1 && n <= B.Length0 && 0 <= c < B.Length1
    reads A, B
  {
    if n == 0 then 0 else Dot(A, B, r, c, n - 1) + A[r, n - 1] * B[n - 1, c]
  }

  /** The same for channel `ch` of a rank-4 left operand `A[0][ch]`, with B
      shared by every channel. */
  function Dot4(A: array4<int>, B: array2<int>, ch: int, r: int, c: int, n: nat): int
    requires 1 <= A.Length0 && 0 <= ch < A.Length1 && 0 <= r < A.Length2 && n <= A.Length3
    requires n <= B.Length0 && 0 <= c < B.Length1
    reads A, B
  {
    if n == 0 then 0 else Dot4(A, B, ch, r, c, n - 1) + A[0, ch, r, n - 1] * B[n - 1, c]
  }

  /** The rank-2 nest: each `Y[r][c]` is reset to 0, then accumulates
      `A[r][i] * B[i][c]` for `i < inner`. The cells inside the trip counts
      end up holding the matrix product; the rest of `Y` is untouched. */
  method Multiply2D(A: array2<int>, B: array2<int>, Y: array2<int>, rows: nat, cols: nat, inner: nat)
    requires Y != A && Y != B
    requires rows <= A.Length0 && inner <= A.Length1 && inner <= B.Length0 && cols <= B.Length1
    requires rows <= Y.Length0 && cols <= Y.Length1
    modifies Y
    ensures forall r, c | 0 <= r < rows && 0 <= c < cols :: Y[r, c] == Dot(A, B, r, c, inner)
    ensures forall r, c | 0 <= r < Y.Length0 && 0 <= c < Y.Length1 && !(r < rows && c < cols) ::
      Y[r, c] == old(Y[r, c])
  {
    for r := 0 to rows
      invariant forall r', c | 0 <= r' < r && 0 <= c < cols :: Y[r', c] == Dot(A, B, r', c, inner)
      invariant forall r', c | 0 <= r' < Y.Length0 && 0 <= c < Y.Length1 && !(r' < r && c < cols) ::
        Y[r', c] == old(Y[r', c])
    {
      for c := 0 to cols
        invariant forall r', c' | 0 <= r' < r && 0 <= c' < cols :: Y[r', c'] == Dot(A, B, r', c', inner)
        invariant forall c' | 0 <= c' < c :: Y[r, c'] == Dot(A, B, r, c', inner)
        invariant forall r', c' | 0 <= r' < Y.Length0 && 0 <= c' < Y.Length1
                    && !(r' < r && c' < cols) && !(r' == r && c' < c) :: Y[r', c'] == old(Y[r', c'])
      {
        Y[r, c] := 0;
        for i := 0 to inner
          invariant Y[r, c] == Dot(A, B, r, c, i)
          invariant forall r', c' | 0 <= r' < r && 0 <= c' < cols :: Y[r', c'] == Dot(A, B, r', c', inner)
          invariant forall c' | 0 <= c' < c :: Y[r, c'] == Dot(A, B, r, c', inner)
          invariant forall r', c' | 0 <= r' < Y.Length0 && 0 <= c' < Y.Length1
                      && !(r' < r && c' < cols) && !(r' == r && c' <= c) :: Y[r', c'] == old(Y[r', c'])
        {
          Y[r, c] := Y[r, c] + A[r, i] * B[i, c];
        }
      }
    }
  }
  /** The rank-4 nest: the rank-2 nest run for every channel `ch` of
      `A[0][ch]`, writing `Y[0][ch]`, with B shared across channels. */
  method Multiply4D(A: array4<int>, B: array2<int>, Y: array4<int>, channels: nat, rows: nat, cols: nat, inner: nat)
    requires Y != A
    requires 1 <= A.Length0 && channels <= A.Length1 && rows <= A.Length2 && inner <= A.Length3
    requires inner <= B.Length0 && cols <= B.Length1
    requires 1 <= Y.Length0 && channels <= Y.Length1 && rows <= Y.Length2 && cols <= Y.Length3
    modifies Y
    ensures forall ch, r, c | 0 <= ch < channels && 0 <= r < rows && 0 <= c < cols ::
      Y[0, ch, r, c] == Dot4(A, B, ch, r, c, inner)
    ensures forall n, ch, r, c | 0 <= n < Y.Length0 && 0 <= ch < Y.Length1 && 0 <= r < Y.Length2 && 0 <= c < Y.Length3
      && !(n == 0 && ch < channels && r < rows && c < cols) :: Y[n, ch, r, c] == old(Y[n, ch, r, c])
  {
    for ch := 0 to channels
      invariant forall ch', r, c | 0 <= ch' < ch && 0 <= r < rows && 0 <= c < cols ::
        Y[0, ch', r, c] == Dot4(A, B, ch', r, c, inner)
      invariant forall n, ch', r, c | 0 <= n < Y.Length0 && 0 <= ch' < Y.Length1 && 0 <= r < Y.Length2 && 0 <= c < Y.Length3
        && !(n == 0 && ch' < ch && r < rows && c < cols) :: Y[n, ch', r, c] == old(Y[n, ch', r, c])
    {
      MultiplyChannel(A, B, Y, ch, rows, cols, inner);
    }
  }

  /** One channel of the rank-4 nest. */
  method MultiplyChannel(A: array4<int>, B: array2<int>, Y: array4<int>, ch: nat, rows: nat, cols: nat, inner: nat)
    requires Y != A
    requires 1 <= A.Length0 && ch < A.Length1 && rows <= A.Length2 && inner <= A.Length3
    requires inner <= B.Length0 && cols <= B.Length1
    requires 1 <= Y.Length0 && ch < Y.Length1 && rows <= Y.Length2 && cols <= Y.Length3
    modifies Y
    ensures forall r, c | 0 <= r < rows && 0 <= c < cols :: Y[0, ch, r, c] == Dot4(A, B, ch, r, c, inner)
    ensures forall n, ch', r, c | 0 <= n < Y.Length0 && 0 <= ch' < Y.Length1 && 0 <= r < Y.Length2 && 0 <= c < Y.Length3
      && !(n == 0 && ch' == ch && r < rows && c < cols) :: Y[n, ch', r, c] == old(Y[n, ch', r, c])
  {
    for r := 0 to rows
      invariant forall r', c | 0 <= r' < r && 0 <= c < cols :: Y[0, ch, r', c] == Dot4(A, B, ch, r', c, inner)
      invariant forall n, ch', r', c | 0 <= n < Y.Length0 && 0 <= ch' < Y.Length1 && 0 <= r' < Y.Length2 && 0 <= c < Y.Length3
        && !(n == 0 && ch' == ch && r' < r && c < cols) :: Y[n, ch', r', c] == old(Y[n, ch', r', c])
    {
      for c := 0 to cols
        invariant forall r', c' | 0 <= r' < r && 0 <= c' < cols :: Y[0, ch, r', c'] == Dot4(A, B, ch, r', c', inner)
        invariant forall c' | 0 <= c' < c :: Y[0, ch, r, c'] == Dot4(A, B, ch, r, c', inner)
        invariant forall n, ch', r', c' | 0 <= n < Y.Length0 && 0 <= ch' < Y.Length1 && 0 <= r' < Y.Length2 && 0 <= c' < Y.Length3
          && !(n == 0 && ch' == ch && r' < r && c' < cols) && !(n == 0 && ch' == ch && r' == r && c' < c) ::
          Y[n, ch', r', c'] == old(Y[n, ch', r', c'])
      {
        Y[0, ch, r, c] := 0;
        for i := 0 to inner
          invariant Y[0, ch, r, c] == Dot4(A, B, ch, r, c, i)
          invariant forall r', c' | 0 <= r' < r && 0 <= c' < cols :: Y[0, ch, r', c'] == Dot4(A, B, ch, r', c', inner)
          invariant forall c' | 0 <= c' < c :: Y[0, ch, r, c'] == Dot4(A, B, ch, r, c', inner)
          invariant forall n, ch', r', c' | 0 <= n < Y.Length0 && 0 <= ch' < Y.Length1 && 0 <= r' < Y.Length2 && 0 <= c' < Y.Length3
            && !(n == 0 && ch' == ch && r' < r && c' < cols) && !(n == 0 && ch' == ch && r' == r && c' <= c) ::
            Y[n, ch', r', c'] == old(Y[n, ch', r', c'])
        {
          Y[0, ch, r, c] := Y[0, ch, r, c] + A[0, ch, r, i] * B[i, c];
        }
      }
    }
  }
}
