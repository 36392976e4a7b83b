/** MultiThreshold (a QONNX quantisation step): every input value becomes the
    number of thresholds of its row of `B` that it reaches, before an affine
    scale and bias. `print` picks one of three loop nests by rank and layout. */
module MultiThreshold {
  import opened Tensors
  import opened Attributes

  // ---------------------------------------------------------------- attributes

  /** The node's fields after `parseAttributes`. `out_bias` has no initialiser
      in the source, so it is `None` until an attribute sets it. */
  datatype Config = Config(outBias: Option<real>, outDtype: string, outScale: real, dataLayout: string)

  /** The fields before any attribute is read. */
  const Defaults := Config(None, "", 0.0, "empty")

  /** A known attribute carries the type its field expects; an unknown one
      is logged and ignored, so it is always accepted. */
  predicate WellTyped(a: Attribute)
  {
    match a.name
    case "out_bias" => a.value.Real?
    case "out_scale" => a.value.Real?
    case "out_dtype" => a.value.Text?
    case "data_layout" => a.value.Text?
    case _ => true
  }

  /** The value of an optional real field: the last attribute's, else `default`. */
  function RealOr(attrs: seq<Attribute>, name: string, default: real): real
  {
    match LastReal(attrs, name)
    case Some(f) => f
    case None => default
  }

  /** The configuration a well-typed attribute list leaves. */
  function Configured(attrs: seq<Attribute>): Config
  {
    Config(LastReal(attrs, "out_bias"), LastText(attrs, "out_dtype", ""),
           RealOr(attrs, "out_scale", 0.0), LastText(attrs, "data_layout", "empty"))
  }

  /** `parseAttributes`: each known attribute overwrites its field, a
      mistyped one aborts, an unknown one is skipped. */
  method ParseAttributes(attrs: seq<Attribute>) returns (r: Result<Config>)
    ensures r.Success? <==> forall k | 0 <= k < |attrs| :: WellTyped(attrs[k])
    ensures r.Success? ==> r.value == Configured(attrs)
    ensures r.Failure? ==> exists k :: FirstRefused(attrs, WellTyped, k) && r.error == BadAttribute(attrs[k].name)
  {
    var config := Defaults;
    for k := 0 to |attrs|
      invariant forall m | 0 <= m < k :: WellTyped(attrs[m])
      invariant config == Configured(attrs[..k])
    {
      var a := attrs[k];
      if !WellTyped(a) {
        assert FirstRefused(attrs, WellTyped, k);
        return Failure(BadAttribute(a.name));
      }
      assert attrs[..k + 1] == attrs[..k] + [a];
      LastSnoc(attrs[..k], a, "out_bias");
      LastSnoc(attrs[..k], a, "out_dtype");
      LastSnoc(attrs[..k], a, "out_scale");
      LastSnoc(attrs[..k], a, "data_layout");
      if a.name == "out_bias" {
        config := config.(outBias := Some(a.value.f));
      } else if a.name == "out_dtype" {
        config := config.(outDtype := a.value.s);
      } else if a.name == "data_layout" {
        config := config.(dataLayout := a.value.s);
      } else if a.name == "out_scale" {
        config := config.(outScale := a.value.f);
      }
    }
    assert attrs[..|attrs|] == attrs;
    return Success(config);
  }

  // ------------------------------------------------------------------- resolve

  /** `resolve`: `Y` has the input's extents and is always FLOAT. */
  function Resolve(A: Tensor): (Y: Tensor)
    ensures Y.dims == A.dims && Y.dtype == Float
  {
    Tensor(A.dims, Float)
  }

  // --------------------------------------------------------- print: dispatch

  /** The loop nest `print` emits, with its trip counts. */
  datatype Nest =
    | Layout4D(channels: int, rows: int, cols: int, thresholds: int)  // `print4DLayout`
    | Plain4D(channels: int, rows: int, cols: int, thresholds: int)   // `print4D`
    | Plain2D(pixels: int, thresholds: int)                           // `print2D`

  /** `print`'s dispatch and the guards of the three nests: the thresholds
      table `B` must have one row per channel (`print4D`), per column in the
      NHWC layout (`print4DLayout`) or per pixel (`print2D`); the last two also
      insist on a batch of 1. */
  function PrintPlan(a: seq<int>, b: seq<int>, dataLayout: string): (r: Result<Nest>)
    requires |b| >= 2
    ensures r.Success? <==>
      || (|a| == 4 && dataLayout == "NHWC" && a[0] == 1 && b[0] == a[3])
      || (|a| == 4 && dataLayout != "NHWC" && b[0] == a[1])
      || (|a| == 2 && a[0] == 1 && b[0] == a[1])
    ensures |a| != 2 && |a| != 4 ==> r == Failure(UnsupportedRank)
    ensures (|a| == 2 || (|a| == 4 && dataLayout == "NHWC")) && a[0] != 1 ==> r == Failure(UnsupportedBatch)
    ensures r.Failure? && r.error != UnsupportedRank && r.error != UnsupportedBatch ==> r.error == ThresholdMismatch
    ensures r.Success? ==> r.value.thresholds == b[1]
    ensures r.Success? && |a| == 4 && dataLayout == "NHWC" ==> r.value == Layout4D(a[1], a[2], a[3], b[1])
    ensures r.Success? && |a| == 4 && dataLayout != "NHWC" ==> r.value == Plain4D(a[1], a[2], a[3], b[1])
    ensures r.Success? && |a| == 2 ==> r.value == Plain2D(a[1], b[1])
  {
    if |a| == 4 then
      if dataLayout == "NHWC" then
        if a[0] != 1 then Failure(UnsupportedBatch)
        else if b[0] != a[3] then Failure(ThresholdMismatch)
        else Success(Layout4D(a[1], a[2], a[3], b[1]))
      else if b[0] != a[1] then Failure(ThresholdMismatch)
      else Success(Plain4D(a[1], a[2], a[3], b[1]))
    else if |a| == 2 then
      if a[0] != 1 then Failure(UnsupportedBatch)
      else if b[0] != a[1] then Failure(ThresholdMismatch)
      else Success(Plain2D(a[1], b[1]))
    else Failure(UnsupportedRank)
  }

  /** The nests that check the batch cover the whole resolved output; `print4D`
      covers batch 0 only, whatever the batch extent. */
  lemma NestCoversOutput(a: seq<int>, b: seq<int>, dataLayout: string)
    requires |b| >= 2 && PrintPlan(a, b, dataLayout).Success?
    ensures var n := PrintPlan(a, b, dataLayout).value;
      match n
      case Layout4D(ch, rows, cols, _) => Resolve(Tensor(a, Float)).dims == [1, ch, rows, cols]
      case Plain4D(ch, rows, cols, _) => Resolve(Tensor(a, Float)).dims == [a[0], ch, rows, cols]
      case Plain2D(pixels, _) => Resolve(Tensor(a, Float)).dims == [1, pixels]
  {
  }

  // ------------------------------------------------------- the counting rule

  /** The number of thresholds in `ts` that `x` reaches (`x >= t`). */
  function Count(x: int, ts: seq<int>): (n: nat)
    ensures n <= |ts|
  {
    if |ts| == 0 then 0
    else Count(x, ts[..|ts| - 1]) + (if x >= ts[|ts| - 1] then 1 else 0)
  }

  lemma CountSnoc(x: int, ts: seq<int>, t: int)
    ensures Count(x, ts + [t]) == Count(x, ts) + (if x >= t then 1 else 0)
  {
    assert (ts + [t])[..|ts|] == ts;
  }

  /** The indices of the thresholds `x` reaches. */
  function Reached(x: int, ts: seq<int>): set<int>
  {
    set t | 0 <= t < |ts| && x >= ts[t]
  }

  /** The count is the number of thresholds reached, whatever their order. */
  lemma {:induction false} CountIsCardinality(x: int, ts: seq<int>)
    ensures Count(x, ts) == |Reached(x, ts)|
  {
    if |ts| > 0 {
      var n := |ts| - 1;
      CountIsCardinality(x, ts[..n]);
      if x >= ts[n] {
        assert Reached(x, ts) == Reached(x, ts[..n]) + {n};
      } else {
        assert Reached(x, ts) == Reached(x, ts[..n]);
      }
    }
  }

  /** A larger input never gets a smaller count. */
  lemma {:induction false} CountMonotone(x: int, y: int, ts: seq<int>)
    requires x <= y
    ensures Count(x, ts) <= Count(y, ts)
  {
    if |ts| > 0 {
      CountMonotone(x, y, ts[..|ts| - 1]);
    }
  }

  predicate Ascending(ts: seq<int>)
  {
    forall i, j | 0 <= i < j < |ts| :: ts[i] <= ts[j]
  }

  /** With ascending thresholds the count is the quantisation level: `x`
      reaches exactly the first `Count` thresholds and none after them. */
  lemma {:induction false} CountIsLevel(x: int, ts: seq<int>)
    requires Ascending(ts)
    ensures forall t | 0 <= t < Count(x, ts) :: ts[t] <= x
    ensures forall t | Count(x, ts) <= t < |ts| :: x < ts[t]
  {
    if |ts| > 0 {
      var n := |ts| - 1;
      CountIsLevel(x, ts[..n]);
    }
  }

  /** Row `i` of the thresholds table, its first `n` entries. */
  function Row(B: array2<int>, i: int, n: nat): (ts: seq<int>)
    requires 0 <= i < B.Length0 && n <= B.Length1
    reads B
    ensures |ts| == n && forall t | 0 <= t < n :: ts[t] == B[i, t]
  {
    seq(n, t requires 0 <= t < n reads B => B[i, t])
  }

  lemma RowSnoc(B: array2<int>, i: int, n: nat)
    requires 0 <= i < B.Length0 && n < B.Length1
    ensures Row(B, i, n + 1) == Row(B, i, n) + [B[i, n]]
  {
  }

  // ----------------------------------------------------------- print2D

  /** `print2D`'s counting loop: pixel by pixel, `Y[0][pixel]` is reset and
      then incremented for every threshold of row `pixel` that `A[0][pixel]`
      reaches. */
  method Threshold2D(A: array2<int>, B: array2<int>, Y: array2<int>, pixels: nat, thresholds: nat)
    requires Y != A && Y != B
    requires 1 <= A.Length0 && pixels <= A.Length1
    requires pixels <= B.Length0 && thresholds <= B.Length1
    requires 1 <= Y.Length0 && pixels <= Y.Length1
    modifies Y
    ensures forall p | 0 <= p < pixels :: Y[0, p] == Count(A[0, p], Row(B, p, thresholds))
    ensures forall i, p | 0 <= i < Y.Length0 && 0 <= p < Y.Length1 && !(i == 0 && p < pixels) ::
      Y[i, p] == old(Y[i, p])
  {
    for pixel := 0 to pixels
      invariant forall p | 0 <= p < pixel :: Y[0, p] == Count(A[0, p], Row(B, p, thresholds))
      invariant forall i, p | 0 <= i < Y.Length0 && 0 <= p < Y.Length1 && !(i == 0 && p < pixel) ::
        Y[i, p] == old(Y[i, p])
    {
      Y[0, pixel] := 0;
      for threshold := 0 to thresholds
        invariant Y[0, pixel] == Count(A[0, pixel], Row(B, pixel, threshold))
        invariant forall p | 0 <= p < pixel :: Y[0, p] == Count(A[0, p], Row(B, p, thresholds))
        invariant forall i, p | 0 <= i < Y.Length0 && 0 <= p < Y.Length1 && !(i == 0 && p <= pixel) ::
          Y[i, p] == old(Y[i, p])
      {
        RowSnoc(B, pixel, threshold);
        CountSnoc(A[0, pixel], Row(B, pixel, threshold), B[pixel, threshold]);
        if A[0, pixel] >= B[pixel, threshold] {
          Y[0, pixel] := Y[0, pixel] + 1;
        }
      }
    }
  }

  // ----------------------------------------------------- print4DLayout

  /** `print4DLayout`'s counting loop: each `Y[0][chan][r][c]` is reset and
      incremented for every threshold of row `c` that `A[0][chan][r][c]`
      reaches (in the NHWC layout the last axis holds the channels). */
  method Threshold4DLayout(A: array4<int>, B: array2<int>, Y: array4<int>,
                           channels: nat, rows: nat, cols: nat, thresholds: nat)
    requires Y != A
    requires 1 <= A.Length0 && channels <= A.Length1 && rows <= A.Length2 && cols <= A.Length3
    requires cols <= B.Length0 && thresholds <= B.Length1
    requires 1 <= Y.Length0 && channels <= Y.Length1 && rows <= Y.Length2 && cols <= Y.Length3
    modifies Y
    ensures forall ch, r, c | 0 <= ch < channels && 0 <= r < rows && 0 <= c < cols ::
      Y[0, ch, r, c] == Count(A[0, ch, r, c], Row(B, c, thresholds))
    ensures forall n, ch, r, c | 0 <= n < Y.Length0 && 0 <= ch < Y.Length1 && 0 <= r < Y.Length2 && 0 <= c < Y.Length3
      && !(n == 0 && ch < channels && r < rows && c < cols) :: Y[n, ch, r, c] == old(Y[n, ch, r, c])
  {
    for ch := 0 to channels
      invariant forall ch', r, c | 0 <= ch' < ch && 0 <= r < rows && 0 <= c < cols ::
        Y[0, ch', r, c] == Count(A[0, ch', r, c], Row(B, c, thresholds))
      invariant forall n, ch', r, c | 0 <= n < Y.Length0 && 0 <= ch' < Y.Length1 && 0 <= r < Y.Length2 && 0 <= c < Y.Length3
        && !(n == 0 && ch' < ch && r < rows && c < cols) :: Y[n, ch', r, c] == old(Y[n, ch', r, c])
    {
      ThresholdChannelLayout(A, B, Y, ch, rows, cols, thresholds);
    }
  }

  /** One channel of `print4DLayout`'s loop. */
  method ThresholdChannelLayout(A: array4<int>, B: array2<int>, Y: array4<int>,
                                ch: nat, rows: nat, cols: nat, thresholds: nat)
    requires Y != A
    requires 1 <= A.Length0 && ch < A.Length1 && rows <= A.Length2 && cols <= A.Length3
    requires cols <= B.Length0 && thresholds <= B.Length1
    requires 1 <= Y.Length0 && ch < Y.Length1 && rows <= Y.Length2 && cols <= Y.Length3
    modifies Y
    ensures forall r, c | 0 <= r < rows && 0 <= c < cols :: Y[0, ch, r, c] == Count(A[0, ch, r, c], Row(B, c, thresholds))
    ensures forall n, ch', r, c | 0 <= n < Y.Length0 && 0 <= ch' < Y.Length1 && 0 <= r < Y.Length2 && 0 <= c < Y.Length3
      && !(n == 0 && ch' == ch && r < rows && c < cols) :: Y[n, ch', r, c] == old(Y[n, ch', r, c])
  {
    for r := 0 to rows
      invariant forall r', c | 0 <= r' < r && 0 <= c < cols :: Y[0, ch, r', c] == Count(A[0, ch, r', c], Row(B, c, thresholds))
      invariant forall n, ch', r', c | 0 <= n < Y.Length0 && 0 <= ch' < Y.Length1 && 0 <= r' < Y.Length2 && 0 <= c < Y.Length3
        && !(n == 0 && ch' == ch && r' < r && c < cols) :: Y[n, ch', r', c] == old(Y[n, ch', r', c])
    {
      for c := 0 to cols
        invariant forall r', c' | 0 <= r' < r && 0 <= c' < cols :: Y[0, ch, r', c'] == Count(A[0, ch, r', c'], Row(B, c', thresholds))
        invariant forall c' | 0 <= c' < c :: Y[0, ch, r, c'] == Count(A[0, ch, r, c'], Row(B, c', thresholds))
        invariant forall n, ch', r', c' | 0 <= n < Y.Length0 && 0 <= ch' < Y.Length1 && 0 <= r' < Y.Length2 && 0 <= c' < Y.Length3
          && !(n == 0 && ch' == ch && r' < r && c' < cols) && !(n == 0 && ch' == ch && r' == r && c' < c) ::
          Y[n, ch', r', c'] == old(Y[n, ch', r', c'])
      {
        CountCellLayout(A, B, Y, ch, r, c, thresholds);
      }
    }
  }

  /** One cell of `print4DLayout`'s loop: zeroed, then raised once per
      threshold of row `c` that the input reaches. */
  method CountCellLayout(A: array4<int>, B: array2<int>, Y: array4<int>, ch: nat, r: nat, c: nat, thresholds: nat)
    requires Y != A
    requires 1 <= A.Length0 && ch < A.Length1 && r < A.Length2 && c < A.Length3
    requires c < B.Length0 && thresholds <= B.Length1
    requires 1 <= Y.Length0 && ch < Y.Length1 && r < Y.Length2 && c < Y.Length3
    modifies Y
    ensures Y[0, ch, r, c] == Count(A[0, ch, r, c], Row(B, c, thresholds))
    ensures forall n, ch', r', c' | 0 <= n < Y.Length0 && 0 <= ch' < Y.Length1 && 0 <= r' < Y.Length2 && 0 <= c' < Y.Length3
      && !(n == 0 && ch' == ch && r' == r && c' == c) :: Y[n, ch', r', c'] == old(Y[n, ch', r', c'])
  {
    Y[0, ch, r, c] := 0;
    for thresh := 0 to thresholds
      invariant Y[0, ch, r, c] == Count(A[0, ch, r, c], Row(B, c, thresh))
      invariant forall n, ch', r', c' | 0 <= n < Y.Length0 && 0 <= ch' < Y.Length1 && 0 <= r' < Y.Length2 && 0 <= c' < Y.Length3
        && !(n == 0 && ch' == ch && r' == r && c' == c) :: Y[n, ch', r', c'] == old(Y[n, ch', r', c'])
    {
      RowSnoc(B, c, thresh);
      CountSnoc(A[0, ch, r, c], Row(B, c, thresh), B[c, thresh]);
      if A[0, ch, r, c] >= B[c, thresh] {
        Y[0, ch, r, c] := Y[0, ch, r, c] + 1;
      }
    }
  }

  // ------------------------------------------------------------- print4D

  /** Cell `p` of channel `ch`'s `rows x cols` plane, counted in row-major order. */
  function PlaneAt(A: array4<int>, ch: int, rows: nat, cols: nat, p: int): int
    requires 1 <= A.Length0 && 0 <= ch < A.Length1 && rows <= A.Length2 && cols <= A.Length3
    requires 0 <= p < rows * cols
    reads A
  {
    DivBelow(p, rows, cols);
    A[0, ch, p / cols, p % cols]
  }

  /** `print4D`'s first reshape: each channel's `rows x cols` plane is copied
      row by row into `reshape_input[chan]` through a running `index`, which
      equals `r * cols + c`; every flat position `p` below `rows * cols` ends
      up holding the plane's cell `(p / cols, p % cols)`. */
  method Flatten(A: array4<int>, channels: nat, rows: nat, cols: nat) returns (R: array2<int>)
    requires 1 <= A.Length0 && channels <= A.Length1 && rows <= A.Length2 && cols <= A.Length3
    ensures fresh(R) && R.Length0 == channels && R.Length1 == rows * cols
    ensures forall ch, p | 0 <= ch < channels && 0 <= p < rows * cols ::
      R[ch, p] == PlaneAt(A, ch, rows, cols, p)
  {
    MulNonNegative(rows, cols);
    R := new int[channels, rows * cols];
    for ch := 0 to channels
      invariant forall ch', p | 0 <= ch' < ch && 0 <= p < rows * cols ::
        R[ch', p] == PlaneAt(A, ch', rows, cols, p)
    {
      FlattenChannel(A, R, ch, rows, cols);
    }
  }

  /** One channel of the first reshape. */
  method FlattenChannel(A: array4<int>, R: array2<int>, ch: nat, rows: nat, cols: nat)
    requires 1 <= A.Length0 && ch < A.Length1 && rows <= A.Length2 && cols <= A.Length3
    requires ch < R.Length0 && R.Length1 == rows * cols
    modifies R
    ensures forall p | 0 <= p < rows * cols :: R[ch, p] == PlaneAt(A, ch, rows, cols, p)
    ensures forall ch', p | 0 <= ch' < R.Length0 && 0 <= p < R.Length1 && ch' != ch :: R[ch', p] == old(R[ch', p])
  {
    var index := 0;
    MulNonNegative(rows, cols);
    for r := 0 to rows
      invariant index == r * cols <= rows * cols
      invariant forall p | 0 <= p < index :: R[ch, p] == PlaneAt(A, ch, rows, cols, p)
      invariant forall ch', p | 0 <= ch' < R.Length0 && 0 <= p < R.Length1 && ch' != ch :: R[ch', p] == old(R[ch', p])
    {
      assert rows * cols - (r + 1) * cols == (rows - r - 1) * cols;
      MulNonNegative(rows - r - 1, cols);
      for c := 0 to cols
        invariant index == r * cols + c <= rows * cols
        invariant forall p | 0 <= p < index :: R[ch, p] == PlaneAt(A, ch, rows, cols, p)
        invariant forall ch', p | 0 <= ch' < R.Length0 && 0 <= p < R.Length1 && ch' != ch :: R[ch', p] == old(R[ch', p])
      {
        Flatten2(r, c, rows, cols);
        R[ch, index] := A[0, ch, r, c];
        index := index + 1;
      }
      assert (r + 1) * cols == r * cols + cols;
    }
    assert index == rows * cols;
  }

  /** `print4D`'s zero fill and counting loops: for every channel, threshold
      by threshold, each pixel of `reshape_output[chan]` is incremented when
      `reshape_input[chan][pixel]` reaches the threshold of row `chan`. */
  method CountPixels(R: array2<int>, B: array2<int>, channels: nat, pixels: nat, thresholds: nat) returns (O: array2<int>)
    requires channels <= R.Length0 && pixels <= R.Length1
    requires channels <= B.Length0 && thresholds <= B.Length1
    ensures fresh(O) && O.Length0 == channels && O.Length1 == pixels
    ensures forall ch, p | 0 <= ch < channels && 0 <= p < pixels :: O[ch, p] == Count(R[ch, p], Row(B, ch, thresholds))
  {
    O := new int[channels, pixels];
    for ch := 0 to channels
      invariant forall ch', p | 0 <= ch' < ch && 0 <= p < pixels :: O[ch', p] == 0
    {
      for pixel := 0 to pixels
        invariant forall ch', p | 0 <= ch' < ch && 0 <= p < pixels :: O[ch', p] == 0
        invariant forall p | 0 <= p < pixel :: O[ch, p] == 0
      {
        O[ch, pixel] := 0;
      }
    }
    for ch := 0 to channels
      invariant forall ch', p | 0 <= ch' < ch && 0 <= p < pixels :: O[ch', p] == Count(R[ch', p], Row(B, ch', thresholds))
      invariant forall ch', p | ch <= ch' < channels && 0 <= p < pixels :: O[ch', p] == 0
    {
      CountChannel(R, B, O, ch, thresholds);
    }
  }

  /** One channel of the counting loops: threshold by threshold, every pixel. */
  method CountChannel(R: array2<int>, B: array2<int>, O: array2<int>, ch: nat, thresholds: nat)
    requires O != R && O != B
    requires ch < O.Length0 && ch < R.Length0 && O.Length1 <= R.Length1
    requires ch < B.Length0 && thresholds <= B.Length1
    requires forall p | 0 <= p < O.Length1 :: O[ch, p] == 0
    modifies O
    ensures forall p | 0 <= p < O.Length1 :: O[ch, p] == Count(R[ch, p], Row(B, ch, thresholds))
    ensures forall ch', p | 0 <= ch' < O.Length0 && 0 <= p < O.Length1 && ch' != ch :: O[ch', p] == old(O[ch', p])
  {
    for threshold := 0 to thresholds
      invariant forall p | 0 <= p < O.Length1 :: O[ch, p] == Count(R[ch, p], Row(B, ch, threshold))
      invariant forall ch', p | 0 <= ch' < O.Length0 && 0 <= p < O.Length1 && ch' != ch :: O[ch', p] == old(O[ch', p])
    {
      RowSnoc(B, ch, threshold);
      for pixel := 0 to O.Length1
        invariant forall p | 0 <= p < pixel :: O[ch, p] == Count(R[ch, p], Row(B, ch, threshold + 1))
        invariant forall p | pixel <= p < O.Length1 :: O[ch, p] == Count(R[ch, p], Row(B, ch, threshold))
        invariant forall ch', p | 0 <= ch' < O.Length0 && 0 <= p < O.Length1 && ch' != ch :: O[ch', p] == old(O[ch', p])
      {
        CountSnoc(R[ch, pixel], Row(B, ch, threshold), B[ch, threshold]);
        if R[ch, pixel] >= B[ch, threshold] {
          O[ch, pixel] := O[ch, pixel] + 1;
        }
      }
    }
  }

  /** `print4D`'s final reshape: the running `index` again walks `r * cols + c`,
      so `Y[0][chan][r][c]` receives `reshape_output[chan][r * cols + c]`. */
  method Unflatten(O: array2<int>, Y: array4<int>, channels: nat, rows: nat, cols: nat)
    requires channels <= O.Length0 && rows * cols <= O.Length1
    requires 1 <= Y.Length0 && channels <= Y.Length1 && rows <= Y.Length2 && cols <= Y.Length3
    modifies Y
    ensures forall ch, r, c | 0 <= ch < channels && 0 <= r < rows && 0 <= c < cols ::
      0 <= r * cols + c < rows * cols && Y[0, ch, r, c] == O[ch, r * cols + c]
    ensures forall n, ch, r, c | 0 <= n < Y.Length0 && 0 <= ch < Y.Length1 && 0 <= r < Y.Length2 && 0 <= c < Y.Length3
      && !(n == 0 && ch < channels && r < rows && c < cols) :: Y[n, ch, r, c] == old(Y[n, ch, r, c])
  {
    for ch := 0 to channels
      invariant forall ch', r, c | 0 <= ch' < ch && 0 <= r < rows && 0 <= c < cols ::
        0 <= r * cols + c < rows * cols && Y[0, ch', r, c] == O[ch', r * cols + c]
      invariant forall n, ch', r, c | 0 <= n < Y.Length0 && 0 <= ch' < Y.Length1 && 0 <= r < Y.Length2 && 0 <= c < Y.Length3
        && !(n == 0 && ch' < ch && r < rows && c < cols) :: Y[n, ch', r, c] == old(Y[n, ch', r, c])
    {
      UnflattenChannel(O, Y, ch, rows, cols);
    }
  }

  /** One channel of the final reshape. */
  method UnflattenChannel(O: array2<int>, Y: array4<int>, ch: nat, rows: nat, cols: nat)
    requires ch < O.Length0 && rows * cols <= O.Length1
    requires 1 <= Y.Length0 && ch < Y.Length1 && rows <= Y.Length2 && cols <= Y.Length3
    modifies Y
    ensures forall r, c | 0 <= r < rows && 0 <= c < cols ::
      0 <= r * cols + c < rows * cols && Y[0, ch, r, c] == O[ch, r * cols + c]
    ensures forall n, ch', r, c | 0 <= n < Y.Length0 && 0 <= ch' < Y.Length1 && 0 <= r < Y.Length2 && 0 <= c < Y.Length3
      && !(n == 0 && ch' == ch && r < rows && c < cols) :: Y[n, ch', r, c] == old(Y[n, ch', r, c])
  {
    var index := 0;
    for r := 0 to rows
      invariant index == r * cols
      invariant forall r', c | 0 <= r' < r && 0 <= c < cols ::
        0 <= r' * cols + c < rows * cols && Y[0, ch, r', c] == O[ch, r' * cols + c]
      invariant forall n, ch', r', c | 0 <= n < Y.Length0 && 0 <= ch' < Y.Length1 && 0 <= r' < Y.Length2 && 0 <= c < Y.Length3
        && !(n == 0 && ch' == ch && r' < r && c < cols) :: Y[n, ch', r', c] == old(Y[n, ch', r', c])
    {
      for c := 0 to cols
        invariant index == r * cols + c
        invariant forall r', c' | 0 <= r' < r && 0 <= c' < cols ::
          0 <= r' * cols + c' < rows * cols && Y[0, ch, r', c'] == O[ch, r' * cols + c']
        invariant forall c' | 0 <= c' < c :: 0 <= r * cols + c' < rows * cols && Y[0, ch, r, c'] == O[ch, r * cols + c']
        invariant forall n, ch', r', c' | 0 <= n < Y.Length0 && 0 <= ch' < Y.Length1 && 0 <= r' < Y.Length2 && 0 <= c' < Y.Length3
          && !(n == 0 && ch' == ch && r' < r && c' < cols) && !(n == 0 && ch' == ch && r' == r && c' < c) ::
          Y[n, ch', r', c'] == old(Y[n, ch', r', c'])
      {
        Flatten2(r, c, rows, cols);
        Y[0, ch, r, c] := O[ch, index];
        index := index + 1;
      }
      assert (r + 1) * cols == r * cols + cols;
    }
  }

  /** `print4D` as a whole: flatten, count, unflatten. Each output cell of
      batch 0 is the count of thresholds of its channel's row that the input
      cell reaches; the rest of `Y` is untouched. */
  method Threshold4D(A: array4<int>, B: array2<int>, Y: array4<int>,
                     channels: nat, rows: nat, cols: nat, thresholds: nat)
    requires Y != A
    requires 1 <= A.Length0 && channels <= A.Length1 && rows <= A.Length2 && cols <= A.Length3
    requires channels <= B.Length0 && thresholds <= B.Length1
    requires 1 <= Y.Length0 && channels <= Y.Length1 && rows <= Y.Length2 && cols <= Y.Length3
    modifies Y
    ensures forall ch, r, c | 0 <= ch < channels && 0 <= r < rows && 0 <= c < cols ::
      Y[0, ch, r, c] == Count(A[0, ch, r, c], Row(B, ch, thresholds))
    ensures forall n, ch, r, c | 0 <= n < Y.Length0 && 0 <= ch < Y.Length1 && 0 <= r < Y.Length2 && 0 <= c < Y.Length3
      && !(n == 0 && ch < channels && r < rows && c < cols) :: Y[n, ch, r, c] == old(Y[n, ch, r, c])
  {
    var reshapeInput := Flatten(A, channels, rows, cols);
    var reshapeOutput := CountPixels(reshapeInput, B, channels, rows * cols, thresholds);
    Unflatten(reshapeOutput, Y, channels, rows, cols);
    forall ch, r, c | 0 <= ch < channels && 0 <= r < rows && 0 <= c < cols
      ensures Y[0, ch, r, c] == Count(A[0, ch, r, c], Row(B, ch, thresholds))
    {
      Flatten2(r, c, rows, cols);
    }
  }
}
