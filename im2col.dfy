/** Im2Col (a QONNX operation that turns a convolution into a matrix
    product): `resolve` checks the attributes and computes the patch matrix's
    shape; `print` emits a transpose of the NHWC input, a gather of every
    kernel window into `after_im_col`, a flat copy, a second transpose and a
    flat copy into `Y`. The buffers the emitted code reinterprets through
    `float*` casts are modelled as flat arrays in row-major order. */
module Im2Col {
  import opened Tensors
  import opened Attributes

  // ---------------------------------------------------------------- attributes

  /** The node's fields after `parseAttributes`; `depthwise` has no
      initialiser, the vectors start empty. */
  datatype Config = Config(depthwise: Option<int>, dilations: seq<int>, kernelSize: seq<int>,
                           stride: seq<int>, padAmount: seq<int>)

  /** A known attribute carries the type its field expects; an unknown one
      is logged and ignored. */
  predicate WellTyped(a: Attribute)
  {
    match a.name
    case "depthwise" => a.value.Int?
    case "dilations" => a.value.Ints?
    case "kernel_size" => a.value.Ints?
    case "stride" => a.value.Ints?
    case "pad_amount" => a.value.Ints?
    case _ => true
  }

  /** The fields a well-typed attribute list leaves. */
  function Configured(attrs: seq<Attribute>): Config
  {
    Config(LastIntOpt(attrs, "depthwise"), LastInts(attrs, "dilations", []), LastInts(attrs, "kernel_size", []),
           LastInts(attrs, "stride", []), LastInts(attrs, "pad_amount", []))
  }

  /** `parseAttributes`: each known attribute overwrites its field, a
      mistyped one aborts, an unknown one is skipped. */
  method ParseAttributes(attrs: seq<Attribute>) returns (r: Result<Config>)
    ensures r.Success? <==> forall k | 0 <= k < |attrs| :: WellTyped(attrs[k])
    ensures r.Success? ==> r.value == Configured(attrs)
    ensures r.Failure? ==> exists k :: FirstRefused(attrs, WellTyped, k) && r.error == BadAttribute(attrs[k].name)
  {
    var config := Config(None, [], [], [], []);
    for k := 0 to |attrs|
      invariant forall m | 0 <= m < k :: WellTyped(attrs[m])
      invariant config == Configured(attrs[..k])
    {
      var a := attrs[k];
      if !WellTyped(a) {
        assert FirstRefused(attrs, WellTyped, k);
        return Failure(BadAttribute(a.name));
      }
      assert attrs[..k + 1] == attrs[..k] + [a];
      LastSnoc(attrs[..k], a, "depthwise");
      LastSnoc(attrs[..k], a, "dilations");
      LastSnoc(attrs[..k], a, "kernel_size");
      LastSnoc(attrs[..k], a, "stride");
      LastSnoc(attrs[..k], a, "pad_amount");
      if a.name == "depthwise" {
        config := config.(depthwise := Some(a.value.i));
      } else if a.name == "dilations" {
        config := config.(dilations := a.value.xs);
      } else if a.name == "kernel_size" {
        config := config.(kernelSize := a.value.xs);
      } else if a.name == "stride" {
        config := config.(stride := a.value.xs);
      } else if a.name == "pad_amount" {
        config := config.(padAmount := a.value.xs);
      }
    }
    assert attrs[..|attrs|] == attrs;
    return Success(config);
  }

  // ------------------------------------------------------------------- resolve

  /** Every attribute `resolve` and `print` read is present and long enough:
      four pads, two dilations, two kernel extents, two strides. */
  predicate LongEnough(cfg: Config)
  {
    |cfg.padAmount| >= 4 && |cfg.dilations| >= 2 && |cfg.kernelSize| >= 2 && |cfg.stride| >= 2
  }

  /** The configurations `resolve` accepts: equal pads on all four sides, no
      dilation, and strides that can be divided by. */
  predicate Supported(cfg: Config)
  {
    && LongEnough(cfg)
    && cfg.padAmount[0] == cfg.padAmount[1] == cfg.padAmount[2] == cfg.padAmount[3]
    && cfg.dilations[0] == 1 && cfg.dilations[1] == 1
    && cfg.stride[0] != 0 && cfg.stride[1] != 0
  }

  /** The defect a fault reports is really there. */
  predicate Blames(f: Fault, rank: nat, cfg: Config)
  {
    match f
    case UnsupportedRank => rank != 4
    case MissingAttribute =>
      |cfg.stride| == 0 || |cfg.padAmount| == 0 || |cfg.dilations| == 0 || |cfg.kernelSize| == 0
    case ShortAttribute => !LongEnough(cfg)
    case UnsupportedPadding =>
      |cfg.padAmount| >= 4 && !(cfg.padAmount[0] == cfg.padAmount[1] == cfg.padAmount[2] == cfg.padAmount[3])
    case UnsupportedDilation => |cfg.dilations| >= 2 && (cfg.dilations[0] != 1 || cfg.dilations[1] != 1)
    case ZeroStride => |cfg.stride| >= 2 && (cfg.stride[0] == 0 || cfg.stride[1] == 0)
    case _ => false
  }

  /** `resolve`'s checks, in the source's order: the first fault, if any.
      Reading a vector shorter than the source indexes, and a zero stride,
      are reported rather than left undefined. */
  function Check(rank: nat, cfg: Config): (f: Option<Fault>)
    ensures f.None? <==> rank == 4 && Supported(cfg)
    ensures rank != 4 ==> f == Some(UnsupportedRank)
    ensures f.Some? ==> Blames(f.value, rank, cfg)
  {
    if rank != 4 then Some(UnsupportedRank)
    else if |cfg.stride| == 0 || |cfg.padAmount| == 0 || |cfg.dilations| == 0 || |cfg.kernelSize| == 0 then
      Some(MissingAttribute)
    else if |cfg.padAmount| < 4 then Some(ShortAttribute)
    else if cfg.padAmount[0] != cfg.padAmount[1] || cfg.padAmount[1] != cfg.padAmount[2]
         || cfg.padAmount[2] != cfg.padAmount[3] || cfg.padAmount[3] != cfg.padAmount[0] then
      Some(UnsupportedPadding)
    else if |cfg.dilations| < 2 then Some(ShortAttribute)
    else if cfg.dilations[0] != 1 || cfg.dilations[1] != 1 then Some(UnsupportedDilation)
    else if |cfg.kernelSize| < 2 || |cfg.stride| < 2 then Some(ShortAttribute)
    else if cfg.stride[0] == 0 || cfg.stride[1] == 0 then Some(ZeroStride)
    else None
  }

  /** `resolve`: a rank-4 NHWC input `[N, H, W, C]` and a supported
      configuration give `Y = [1, (H + 2p - k0) / s0 + 1, (W + 2p - k1) / s1 + 1,
      k1 * k0 * C]` (C division, truncating), FLOAT; otherwise the fault
      `Check` finds first. */
  function Resolve(A: Tensor, cfg: Config): (r: Result<Tensor>)
    ensures r.Success? <==> |A.dims| == 4 && Supported(cfg)
    ensures |A.dims| != 4 ==> r == Failure(UnsupportedRank)
    ensures r.Failure? ==> Blames(r.error, |A.dims|, cfg)
    ensures r.Success? ==>
      var p, k, s := cfg.padAmount[0], cfg.kernelSize, cfg.stride;
      && r.value.dtype == Float
      && r.value.dims == [1, TruncDiv(A.dims[1] + 2 * p - k[0], s[0]) + 1,
                             TruncDiv(A.dims[2] + 2 * p - k[1], s[1]) + 1, k[1] * k[0] * A.dims[3]]
  {
    match Check(|A.dims|, cfg)
    case Some(f) => Failure(f)
    case None =>
      var p, k, s := cfg.padAmount[0], cfg.kernelSize, cfg.stride;
      Success(Tensor([1, TruncDiv(A.dims[1] + 2 * p - k[0], s[0]) + 1,
                         TruncDiv(A.dims[2] + 2 * p - k[1], s[1]) + 1, k[1] * k[0] * A.dims[3]], Float))
  }

  /** The extent `resolve` gives a spatial axis counts the kernel windows that
      fit: for a padded length `L` at least the kernel `k`, window `j` (starting
      at `j * s`) is among the first `(L - k) / s + 1` exactly when it ends
      inside `L`. */
  lemma WindowsFit(L: int, k: int, s: int, j: int)
    requires s > 0 && k <= L && 0 <= j
    ensures j < TruncDiv(L - k, s) + 1 <==> j * s + k <= L
  {
    var q := (L - k) / s;
    assert TruncDiv(L - k, s) == q;
    MulMonotone(j, q, s);
    MulMonotone(q + 1, j, s);
    assert (q + 1) * s == q * s + s;
  }

  /** A 3 x 3 kernel over 5 rows: 3 windows with stride 1 and no padding,
      5 with one row of padding on each side. */
  lemma ThreeByThreeOverFive()
    ensures Resolve(Tensor([1, 5, 5, 2], UInt8), Config(None, [1, 1], [3, 3], [1, 1], [0, 0, 0, 0]))
         == Success(Tensor([1, 3, 3, 18], Float))
    ensures Resolve(Tensor([1, 5, 5, 2], UInt8), Config(None, [1, 1], [3, 3], [1, 1], [1, 1, 1, 1]))
         == Success(Tensor([1, 5, 5, 18], Float))
  {
  }

  // -------------------------------------------------------- print: sizes

  /** The window geometry `print` prints into the gather loop. */
  datatype Window = Window(k0: int, k1: int, s0: int, s1: int, p0: int, p1: int)

  function WindowOf(cfg: Config): Window
    requires LongEnough(cfg)
  {
    Window(cfg.kernelSize[0], cfg.kernelSize[1], cfg.stride[0], cfg.stride[1], cfg.padAmount[0], cfg.padAmount[1])
  }

  /** `print`'s `col_channels`, `col_rows` and `col_columns`. */
  datatype ColSizes = ColSizes(channels: int, rows: int, columns: int)

  /** `print` recomputes the sizes itself, padding by `pads_h = p0 + p2` and
      `pads_w = p1 + p3`. */
  function PrintSizes(a: seq<int>, cfg: Config): ColSizes
    requires |a| == 4 && LongEnough(cfg) && cfg.stride[0] != 0 && cfg.stride[1] != 0
  {
    var padsH := cfg.padAmount[0] + cfg.padAmount[2];
    var padsW := cfg.padAmount[1] + cfg.padAmount[3];
    ColSizes(cfg.kernelSize[1] * cfg.kernelSize[0] * a[3],
             TruncDiv(a[1] + padsH - cfg.kernelSize[0], cfg.stride[0]) + 1,
             TruncDiv(a[2] + padsW - cfg.kernelSize[1], cfg.stride[1]) + 1)
  }

  /** With the pads `resolve` accepts, `print`'s sizes are `Y`'s extents, and
      the flat copies' count `col_channels * col_rows * col_columns` is `Y`'s
      element count. */
  lemma PrintSizesMatchResolve(A: Tensor, cfg: Config)
    requires Resolve(A, cfg).Success?
    ensures var z := PrintSizes(A.dims, cfg);
      && Resolve(A, cfg).value.dims == [1, z.rows, z.columns, z.channels]
      && Product(Resolve(A, cfg).value.dims) == z.channels * z.rows * z.columns
  {
    var z := PrintSizes(A.dims, cfg);
    ProductOfFour(z.rows, z.columns, z.channels);
  }

  /** The element count of `[1, r, c, ch]`. */
  lemma ProductOfFour(r: int, c: int, ch: int)
    ensures Product([1, r, c, ch]) == ch * r * c
  {
    var d := [1, r, c, ch];
    assert d[1..] == [r, c, ch] && d[1..][1..] == [c, ch] && d[1..][1..][1..] == [ch];
    assert d[1..][1..][1..][1..] == [];
    assert Product(d[1..][1..][1..]) == ch;
    assert Product(d[1..][1..]) == c * ch;
    assert Product(d[1..]) == r * (c * ch);
  }

  // ---------------------------------------- print: the channel decomposition

  /** The offsets the gather loop derives from its column-channel index. */
  datatype Offsets = Offsets(w: int, h: int, ic: int)

  /** `w_offset = chan % k0`, `h_offset = (chan / k0) % k1`,
      `input_channel = (chan / k0) / k1`: mixed-radix digits of `chan`. */
  function Decompose(chan: int, k0: int, k1: int): (o: Offsets)
    requires chan >= 0 && k0 > 0 && k1 > 0
    ensures 0 <= o.w < k0 && 0 <= o.h < k1 && 0 <= o.ic
    ensures chan == o.w + k0 * (o.h + k1 * o.ic)
  {
    DivModParts(chan, k0);
    DivModParts(chan / k0, k1);
    Offsets(chan % k0, (chan / k0) % k1, (chan / k0) / k1)
  }

  lemma DivModParts(a: int, n: int)
    requires a >= 0 && n > 0
    ensures a == a % n + n * (a / n) && 0 <= a % n < n && 0 <= a / n
  {
  }

  /** Composing the digits back gives them again: the decomposition is a
      bijection between channel indices and offset triples. */
  lemma DecomposeCompose(w: int, h: int, ic: int, k0: int, k1: int)
    requires k0 > 0 && k1 > 0 && 0 <= w < k0 && 0 <= h < k1 && 0 <= ic
    ensures w + k0 * (h + k1 * ic) >= 0
    ensures Decompose(w + k0 * (h + k1 * ic), k0, k1) == Offsets(w, h, ic)
  {
    MulNonNegative(k1, ic);
    MulNonNegative(k0, h + k1 * ic);
    var chan := w + k0 * (h + k1 * ic);
    DivModUnique(chan, k0, h + k1 * ic, w);
    DivModUnique(h + k1 * ic, k1, ic, h);
  }

  /** Below `k1 * k0 * C` column channels, the input channel is below `C`. */
  lemma ChannelInRange(chan: int, k0: int, k1: int, C: int)
    requires k0 > 0 && k1 > 0 && 0 <= chan < k1 * k0 * C
    ensures Decompose(chan, k0, k1).ic < C
  {
    assert k1 * k0 * C == (k1 * C) * k0;
    DivBelow(chan, k1 * C, k0);
    assert k1 * C == C * k1;
    DivBelow(chan / k0, C, k1);
  }

  // ---------------------------------------------- print: the first transpose

  /** The first transpose: `first_transpose[0][c][chan][r] = A[0][chan][r][c]`,
      for every cell of the freshly declared `[1][C][H][W]` buffer (C, H, W
      being the input's channels, rows and columns). */
  method FirstTranspose(A: array4<int>) returns (T: array4<int>)
    requires 1 <= A.Length0
    ensures fresh(T)
    ensures T.Length0 == 1 && T.Length1 == A.Length3 && T.Length2 == A.Length1 && T.Length3 == A.Length2
    ensures forall chan, r, c | 0 <= chan < A.Length1 && 0 <= r < A.Length2 && 0 <= c < A.Length3 ::
      T[0, c, chan, r] == A[0, chan, r, c]
  {
    T := new int[1, A.Length3, A.Length1, A.Length2];
    for chan := 0 to A.Length1
      invariant forall chan', r, c | 0 <= chan' < chan && 0 <= r < A.Length2 && 0 <= c < A.Length3 ::
        T[0, c, chan', r] == A[0, chan', r, c]
    {
      for r := 0 to A.Length2
        invariant forall chan', r', c | 0 <= chan' < chan && 0 <= r' < A.Length2 && 0 <= c < A.Length3 ::
          T[0, c, chan', r'] == A[0, chan', r', c]
        invariant forall r', c | 0 <= r' < r && 0 <= c < A.Length3 :: T[0, c, chan, r'] == A[0, chan, r', c]
      {
        for c := 0 to A.Length3
          invariant forall chan', r', c' | 0 <= chan' < chan && 0 <= r' < A.Length2 && 0 <= c' < A.Length3 ::
            T[0, c', chan', r'] == A[0, chan', r', c']
          invariant forall r', c' | 0 <= r' < r && 0 <= c' < A.Length3 :: T[0, c', chan, r'] == A[0, chan, r', c']
          invariant forall c' | 0 <= c' < c :: T[0, c', chan, r] == A[0, chan, r, c']
        {
          T[0, c, chan, r] := A[0, chan, r, c];
        }
      }
    }
  }

  // ------------------------------------------------------ print: the gather

  /** The value the gather stores for column channel `chan` at output
      position `(r, c)`, read back from the input: the row and column indices
      are computed in `uint32_t`, so a window position left of or above the
      input wraps to a large value and fails the bounds test, which stores 0. */
  function Patch(A: array4<int>, win: Window, chan: int, r: int, c: int): int
    requires 1 <= A.Length0 && win.k0 > 0 && win.k1 > 0
    requires 0 <= chan < win.k1 * win.k0 * A.Length3
    reads A
  {
    var o := Decompose(chan, win.k0, win.k1);
    ChannelInRange(chan, win.k0, win.k1, A.Length3);
    var inputColumn := Wrap32(o.h + r * win.s0 - win.p0);
    var inputRow := Wrap32(o.w + c * win.s1 - win.p1);
    if o.ic > A.Length3 || o.ic < 0 || inputColumn >= A.Length1 || inputColumn < 0
       || inputRow >= A.Length2 || inputRow < 0 then 0
    else A[0, inputColumn, inputRow, o.ic]
  }

  /** A window cell that lies inside the input reads the input there. */
  lemma PatchInside(A: array4<int>, win: Window, chan: int, r: int, c: int)
    requires 1 <= A.Length0 && win.k0 > 0 && win.k1 > 0
    requires 0 <= chan < win.k1 * win.k0 * A.Length3
    requires A.Length1 < Uint32Modulus && A.Length2 < Uint32Modulus
    requires var o := Decompose(chan, win.k0, win.k1);
      0 <= o.h + r * win.s0 - win.p0 < A.Length1 && 0 <= o.w + c * win.s1 - win.p1 < A.Length2
    ensures var o := Decompose(chan, win.k0, win.k1);
      o.ic < A.Length3 &&
      Patch(A, win, chan, r, c) == A[0, o.h + r * win.s0 - win.p0, o.w + c * win.s1 - win.p1, o.ic]
  {
    ChannelInRange(chan, win.k0, win.k1, A.Length3);
  }

  /** The number of column channels, `k1 * k0 * C`. */
  function ColChannels(A: array4<int>, win: Window): int
  {
    win.k1 * win.k0 * A.Length3
  }

  /** The gathered value at flat position `s` of `after_im_col`, declared
      `[col_channels][col_rows * col_columns]`. */
  function PatchAt(A: array4<int>, win: Window, colRows: nat, colCols: nat, s: int): int
    requires 1 <= A.Length0 && win.k0 > 0 && win.k1 > 0
    requires 0 <= s < ColChannels(A, win) * (colRows * colCols)
    reads A
  {
    MulNonNegative(win.k1, win.k0);
    MulNonNegative(win.k1 * win.k0, A.Length3);
    var P := colRows * colCols;
    DivBelow(s, ColChannels(A, win), P);
    DivBelow(s % P, colRows, colCols);
    Patch(A, win, s / P, (s % P) / colCols, (s % P) % colCols)
  }

  /** `PatchAt` at the flat position of `(chan, r, c)` is that cell's patch value. */
  lemma PatchAtCell(A: array4<int>, win: Window, colRows: nat, colCols: nat, chan: int, r: int, c: int)
    requires 1 <= A.Length0 && win.k0 > 0 && win.k1 > 0
    requires 0 <= chan < ColChannels(A, win) && 0 <= r < colRows && 0 <= c < colCols
    ensures 0 <= chan * (colRows * colCols) + (r * colCols + c) < ColChannels(A, win) * (colRows * colCols)
    ensures PatchAt(A, win, colRows, colCols, chan * (colRows * colCols) + (r * colCols + c))
         == Patch(A, win, chan, r, c)
  {
    Flatten2(r, c, colRows, colCols);
    Flatten2(chan, r * colCols + c, ColChannels(A, win), colRows * colCols);
  }

  /** The gather loop: for every column channel, its offsets are derived once,
      then a running `index_after` walks the `col_rows x col_columns` output
      positions, storing the window cell or 0. Every position of the fresh
      `after_im_col` receives the value `PatchAt` describes. */
  method Gather(A: array4<int>, T: array4<int>, win: Window, colRows: nat, colCols: nat) returns (after: array<int>)
    requires 1 <= A.Length0 && win.k0 > 0 && win.k1 > 0
    requires T.Length0 == 1 && T.Length1 == A.Length3 && T.Length2 == A.Length1 && T.Length3 == A.Length2
    requires forall chan, r, c | 0 <= chan < A.Length1 && 0 <= r < A.Length2 && 0 <= c < A.Length3 ::
      T[0, c, chan, r] == A[0, chan, r, c]
    ensures fresh(after) && after.Length == ColChannels(A, win) * (colRows * colCols)
    ensures forall s | 0 <= s < after.Length :: after[s] == PatchAt(A, win, colRows, colCols, s)
  {
    var colChannels := win.k1 * win.k0 * A.Length3;
    MulNonNegative(win.k1, win.k0);
    MulNonNegative(win.k1 * win.k0, A.Length3);
    var P := colRows * colCols;
    MulNonNegative(colChannels, P);
    after := new int[colChannels * P];
    for chan := 0 to colChannels
      invariant 0 <= chan * P <= after.Length
      invariant forall s | 0 <= s < chan * P :: after[s] == PatchAt(A, win, colRows, colCols, s)
    {
      GatherChannel(A, T, win, colRows, colCols, chan, after);
      assert (chan + 1) * P == chan * P + P;
    }
  }

  /** One column channel of the gather: the `col_rows * col_columns` cells
      from `chan * col_rows * col_columns` on. */
  method GatherChannel(A: array4<int>, T: array4<int>, win: Window, colRows: nat, colCols: nat, chan: int,
                       after: array<int>)
    requires 1 <= A.Length0 && win.k0 > 0 && win.k1 > 0
    requires T.Length0 == 1 && T.Length1 == A.Length3 && T.Length2 == A.Length1 && T.Length3 == A.Length2
    requires forall chan, r, c | 0 <= chan < A.Length1 && 0 <= r < A.Length2 && 0 <= c < A.Length3 ::
      T[0, c, chan, r] == A[0, chan, r, c]
    requires 0 <= chan < ColChannels(A, win) && after.Length == ColChannels(A, win) * (colRows * colCols)
    requires 0 <= chan * (colRows * colCols) <= after.Length
    requires forall s | 0 <= s < chan * (colRows * colCols) :: after[s] == PatchAt(A, win, colRows, colCols, s)
    modifies after
    ensures chan * (colRows * colCols) + colRows * colCols <= after.Length
    ensures forall s | 0 <= s < chan * (colRows * colCols) + colRows * colCols ::
      after[s] == PatchAt(A, win, colRows, colCols, s)
  {
    var base := chan * (colRows * colCols);
    var o := Decompose(chan, win.k0, win.k1);
    ChannelInRange(chan, win.k0, win.k1, A.Length3);
    var indexAfter := 0;
    for r := 0 to colRows
      invariant indexAfter == r * colCols && base + indexAfter <= after.Length
      invariant forall s | 0 <= s < base + indexAfter :: after[s] == PatchAt(A, win, colRows, colCols, s)
    {
      indexAfter := GatherRow(A, T, win, colRows, colCols, chan, o, r, after, base, indexAfter);
      assert (r + 1) * colCols == r * colCols + colCols;
    }
    assert indexAfter == colRows * colCols;
  }

  /** One output row of one column channel: `index_after` runs on through
      the `col_columns` cells of row `r`. */
  method GatherRow(A: array4<int>, T: array4<int>, win: Window, colRows: nat, colCols: nat, chan: int, o: Offsets,
                   r: int, after: array<int>, base: int, indexAfter0: int) returns (indexAfter: int)
    requires 1 <= A.Length0 && win.k0 > 0 && win.k1 > 0
    requires T.Length0 == 1 && T.Length1 == A.Length3 && T.Length2 == A.Length1 && T.Length3 == A.Length2
    requires forall chan, r, c | 0 <= chan < A.Length1 && 0 <= r < A.Length2 && 0 <= c < A.Length3 ::
      T[0, c, chan, r] == A[0, chan, r, c]
    requires 0 <= chan < ColChannels(A, win) && after.Length == ColChannels(A, win) * (colRows * colCols)
    requires o == Decompose(chan, win.k0, win.k1) && o.ic < A.Length3
    requires 0 <= r < colRows && indexAfter0 == r * colCols && base == chan * (colRows * colCols)
    requires base + indexAfter0 <= after.Length
    requires forall s | 0 <= s < base + indexAfter0 :: after[s] == PatchAt(A, win, colRows, colCols, s)
    modifies after
    ensures indexAfter == indexAfter0 + colCols && base + indexAfter <= after.Length
    ensures forall s | 0 <= s < base + indexAfter :: after[s] == PatchAt(A, win, colRows, colCols, s)
  {
    indexAfter := indexAfter0;
    for c := 0 to colCols
      invariant indexAfter == indexAfter0 + c && base + indexAfter <= after.Length
      invariant forall s | 0 <= s < base + indexAfter :: after[s] == PatchAt(A, win, colRows, colCols, s)
    {
      var inputColumn := Wrap32(o.h + r * win.s0 - win.p0);
      var inputRow := Wrap32(o.w + c * win.s1 - win.p1);
      PatchAtCell(A, win, colRows, colCols, chan, r, c);
      if o.ic > A.Length3 || o.ic < 0 || inputColumn >= A.Length1 || inputColumn < 0
         || inputRow >= A.Length2 || inputRow < 0 {
        after[base + indexAfter] := 0;
      } else {
        after[base + indexAfter] := T[0, o.ic, inputColumn, inputRow];
      }
      indexAfter := indexAfter + 1;
    }
  }

  // ----------------------------------------------------- print: flat copies

  /** A flat copy through two `float*` views: `dst[i] = src[i]` for `i < n`. */
  method FlatCopy(src: array<int>, dst: array<int>, n: nat)
    requires src != dst && n <= src.Length && n <= dst.Length
    modifies dst
    ensures dst[..n] == src[..n]
    ensures dst[n..] == old(dst[n..])
  {
    for i := 0 to n
      invariant dst[..i] == src[..i]
      invariant dst[n..] == old(dst[n..])
    {
      dst[i] := src[i];
    }
  }

  // ---------------------------------------------- row-major, five axes

  /** An index, or a list of extents, over five axes, outermost first. */
  datatype Index5 = Index5(a: int, b: int, c: int, d: int, e: int)

  predicate NonNegative5(dims: Index5)
  {
    dims.a >= 0 && dims.b >= 0 && dims.c >= 0 && dims.d >= 0 && dims.e >= 0
  }

  predicate InRange5(x: Index5, dims: Index5)
  {
    0 <= x.a < dims.a && 0 <= x.b < dims.b && 0 <= x.c < dims.c && 0 <= x.d < dims.d && 0 <= x.e < dims.e
  }

  /** The number of cells. */
  function Size5(dims: Index5): int
  {
    dims.a * dims.b * dims.c * dims.d * dims.e
  }

  /** The row-major offset of `x`. */
  function Encode5(x: Index5, dims: Index5): int
  {
    (((x.a * dims.b + x.b) * dims.c + x.c) * dims.d + x.d) * dims.e + x.e
  }

  /** The index at row-major offset `s`. */
  function Decode5(s: int, dims: Index5): Index5
    requires dims.b > 0 && dims.c > 0 && dims.d > 0 && dims.e > 0
  {
    var s4 := s / dims.e;
    var s3 := s4 / dims.d;
    var s2 := s3 / dims.c;
    Index5(s2 / dims.b, s2 % dims.b, s3 % dims.c, s4 % dims.d, s % dims.e)
  }

  lemma SizePositive(dims: Index5)
    requires NonNegative5(dims) && Size5(dims) > 0
    ensures dims.a > 0 && dims.b > 0 && dims.c > 0 && dims.d > 0 && dims.e > 0
  {
    MulNonNegative(dims.a, dims.b);
    MulNonNegative(dims.a * dims.b, dims.c);
    MulNonNegative(dims.a * dims.b * dims.c, dims.d);
  }

  /** An index in range has an offset in range, and decoding the offset gives it back. */
  lemma DecodeEncode(x: Index5, dims: Index5)
    requires InRange5(x, dims)
    ensures 0 <= Encode5(x, dims) < Size5(dims)
    ensures Decode5(Encode5(x, dims), dims) == x
  {
    var t1 := x.a * dims.b + x.b;
    Flatten2(x.a, x.b, dims.a, dims.b);
    var t2 := t1 * dims.c + x.c;
    Flatten2(t1, x.c, dims.a * dims.b, dims.c);
    var t3 := t2 * dims.d + x.d;
    Flatten2(t2, x.d, dims.a * dims.b * dims.c, dims.d);
    Flatten2(t3, x.e, dims.a * dims.b * dims.c * dims.d, dims.e);
  }

  /** An offset in range decodes to an index in range that encodes back to it. */
  lemma EncodeDecode(s: int, dims: Index5)
    requires NonNegative5(dims) && 0 <= s < Size5(dims)
    ensures dims.b > 0 && dims.c > 0 && dims.d > 0 && dims.e > 0
    ensures InRange5(Decode5(s, dims), dims) && Encode5(Decode5(s, dims), dims) == s
  {
    SizePositive(dims);
    DivBelow(s, dims.a * dims.b * dims.c * dims.d, dims.e);
    var s4 := s / dims.e;
    DivBelow(s4, dims.a * dims.b * dims.c, dims.d);
    var s3 := s4 / dims.d;
    DivBelow(s3, dims.a * dims.b, dims.c);
    var s2 := s3 / dims.c;
    DivBelow(s2, dims.a, dims.b);
  }

  /** The second transpose's axis order: `[i1][i2][i3][i4][i5]` becomes
      `[i4][i5][i2][i3][i1]`. */
  function Swap(x: Index5): Index5
  {
    Index5(x.d, x.e, x.b, x.c, x.a)
  }

  /** Where the second transpose sends the element at source offset `s`. */
  function Perm(s: int, dims: Index5): (t: int)
    requires NonNegative5(dims) && 0 <= s < Size5(dims)
    ensures 0 <= t < Size5(dims)
  {
    EncodeDecode(s, dims);
    DecodeEncode(Swap(Decode5(s, dims)), Swap(dims));
    SizeSwap(dims);
    Encode5(Swap(Decode5(s, dims)), Swap(dims))
  }

  lemma SizeSwap(dims: Index5)
    ensures Size5(Swap(dims)) == Size5(dims)
  {
  }

  /** `Perm` is a bijection of `[0, Size5(dims))`: it stays in range (its
      contract), no two offsets share an image, and every offset is an image. */
  lemma PermInjective(s: int, t: int, dims: Index5)
    requires NonNegative5(dims) && 0 <= s < Size5(dims) && 0 <= t < Size5(dims)
    requires Perm(s, dims) == Perm(t, dims)
    ensures s == t
  {
    EncodeDecode(s, dims);
    EncodeDecode(t, dims);
    DecodeEncode(Swap(Decode5(s, dims)), Swap(dims));
    DecodeEncode(Swap(Decode5(t, dims)), Swap(dims));
  }

  lemma PermOnto(t: int, dims: Index5)
    requires NonNegative5(dims) && 0 <= t < Size5(dims)
    ensures exists s | 0 <= s < Size5(dims) :: Perm(s, dims) == t
  {
    SizeSwap(dims);
    EncodeDecode(t, Swap(dims));
    var y := Decode5(t, Swap(dims));
    var x := Index5(y.e, y.c, y.d, y.a, y.b);
    DecodeEncode(x, dims);
    var s := Encode5(x, dims);
    assert Swap(x) == y;
    assert Perm(s, dims) == t;
  }

  lemma Carry(x: Index5, dims: Index5)
    ensures Encode5(Index5(x.a, x.b, x.c, x.d, dims.e), dims) == Encode5(Index5(x.a, x.b, x.c, x.d + 1, 0), dims)
    ensures Encode5(Index5(x.a, x.b, x.c, dims.d, 0), dims) == Encode5(Index5(x.a, x.b, x.c + 1, 0, 0), dims)
    ensures Encode5(Index5(x.a, x.b, dims.c, 0, 0), dims) == Encode5(Index5(x.a, x.b + 1, 0, 0, 0), dims)
    ensures Encode5(Index5(x.a, dims.b, 0, 0, 0), dims) == Encode5(Index5(x.a + 1, 0, 0, 0, 0), dims)
  {
  }

  // ---------------------------------------------- print: the second transpose

  /** The second transpose, `intermediate_output_second[0][i4][i5][i2][i3][i1]
      = intermediate_output[0][i1][i2][i3][i4][i5]` over the flat buffers:
      the source element at offset `s` lands at `Perm(s)`, which, `Perm`
      being a bijection, writes every cell of the fresh buffer exactly once. */
  method SecondTranspose(src: array<int>, dims: Index5) returns (dst: array<int>)
    requires NonNegative5(dims) && src.Length == Size5(dims)
    ensures fresh(dst) && dst.Length == Size5(dims)
    ensures forall s | 0 <= s < Size5(dims) :: dst[Perm(s, dims)] == src[s]
  {
    MulNonNegative(dims.a, dims.b);
    MulNonNegative(dims.a * dims.b, dims.c);
    MulNonNegative(dims.a * dims.b * dims.c, dims.d);
    MulNonNegative(dims.a * dims.b * dims.c * dims.d, dims.e);
    dst := new int[Size5(dims)];
    ghost var q := 0;
    for i1 := 0 to dims.a
      invariant q == Encode5(Index5(i1, 0, 0, 0, 0), dims) && q <= Size5(dims)
      invariant forall s | 0 <= s < q :: dst[Perm(s, dims)] == src[s]
    {
      for i2 := 0 to dims.b
        invariant q == Encode5(Index5(i1, i2, 0, 0, 0), dims) && q <= Size5(dims)
        invariant forall s | 0 <= s < q :: dst[Perm(s, dims)] == src[s]
      {
        for i3 := 0 to dims.c
          invariant q == Encode5(Index5(i1, i2, i3, 0, 0), dims) && q <= Size5(dims)
          invariant forall s | 0 <= s < q :: dst[Perm(s, dims)] == src[s]
        {
          for i4 := 0 to dims.d
            invariant q == Encode5(Index5(i1, i2, i3, i4, 0), dims) && q <= Size5(dims)
            invariant forall s | 0 <= s < q :: dst[Perm(s, dims)] == src[s]
          {
            for i5 := 0 to dims.e
              invariant q == Encode5(Index5(i1, i2, i3, i4, i5), dims) && q <= Size5(dims)
              invariant forall s | 0 <= s < q :: dst[Perm(s, dims)] == src[s]
            {
              TransposeStep(Index5(i1, i2, i3, i4, i5), dims, q);
              dst[Encode5(Index5(i4, i5, i2, i3, i1), Swap(dims))] := src[Encode5(Index5(i1, i2, i3, i4, i5), dims)];
              q := q + 1;
            }
            Carry(Index5(i1, i2, i3, i4, 0), dims);
          }
          Carry(Index5(i1, i2, i3, 0, 0), dims);
        }
        Carry(Index5(i1, i2, 0, 0, 0), dims);
      }
      Carry(Index5(i1, 0, 0, 0, 0), dims);
    }
  }

  /** One step of the second transpose: the cell it writes is `Perm(q)`, in
      range, and no earlier step wrote it. */
  lemma TransposeStep(x: Index5, dims: Index5, q: int)
    requires NonNegative5(dims) && InRange5(x, dims) && q == Encode5(x, dims)
    ensures 0 <= q < Size5(dims)
    ensures Perm(q, dims) == Encode5(Swap(x), Swap(dims)) && 0 <= Perm(q, dims) < Size5(dims)
    ensures forall s | 0 <= s < q :: Perm(s, dims) != Perm(q, dims)
  {
    DecodeEncode(x, dims);
    forall s | 0 <= s < q
      ensures Perm(s, dims) != Perm(q, dims)
    {
      if Perm(s, dims) == Perm(q, dims) {
        PermInjective(s, q, dims);
      }
    }
  }

  // --------------------------------------------------------- print: the whole

  /** The extents of the input array. */
  function Dims(A: array4<int>): seq<int>
  {
    [A.Length0, A.Length1, A.Length2, A.Length3]
  }

  /** `intermediate_output`'s extents after the batch: `[C][k0][k1][col_rows][col_columns]`. */
  function InterDims(A: array4<int>, win: Window, colRows: int, colCols: int): Index5
  {
    Index5(A.Length3, win.k0, win.k1, colRows, colCols)
  }

  /** `intermediate_output` holds as many cells as `after_im_col`. */
  lemma InterSize(A: array4<int>, win: Window, colRows: int, colCols: int)
    ensures Size5(InterDims(A, win, colRows, colCols)) == win.k1 * win.k0 * A.Length3 * colRows * colCols
    ensures Size5(InterDims(A, win, colRows, colCols)) == ColChannels(A, win) * (colRows * colCols)
  {
  }

  /** Everything `print` emits, run on an input and attributes that `resolve`
      accepts (`Supported`), with positive kernel extents and non-negative
      column sizes (the declarations of the emitted buffers need them). `Y`, read in its row-major order,
      holds the gathered patch values permuted by the second transpose. */
  method Print(A: array4<int>, cfg: Config, Y: array<int>)
    requires 1 <= A.Length0 && Supported(cfg)
    requires cfg.kernelSize[0] > 0 && cfg.kernelSize[1] > 0
    requires PrintSizes(Dims(A), cfg).rows >= 0 && PrintSizes(Dims(A), cfg).columns >= 0
    requires Y.Length == PrintSizes(Dims(A), cfg).channels * (PrintSizes(Dims(A), cfg).rows * PrintSizes(Dims(A), cfg).columns)
    modifies Y
    ensures var z := PrintSizes(Dims(A), cfg);
      Size5(InterDims(A, WindowOf(cfg), z.rows, z.columns)) == Y.Length
    ensures var z := PrintSizes(Dims(A), cfg);
      forall s | 0 <= s < Y.Length ::
        Y[Perm(s, InterDims(A, WindowOf(cfg), z.rows, z.columns))] == PatchAt(A, WindowOf(cfg), z.rows, z.columns, s)
  {
    var win := WindowOf(cfg);
    var z := PrintSizes(Dims(A), cfg);
    InterSize(A, win, z.rows, z.columns);
    Emit(A, win, z.rows, z.columns, Y);
  }

  /** The emitted statements of `print`, once the sizes are printed: the
      first transpose, the gather, the flat copy into `intermediate_output`,
      the second transpose and the flat copy into `Y`. */
  method Emit(A: array4<int>, win: Window, colRows: nat, colCols: nat, Y: array<int>)
    requires 1 <= A.Length0 && win.k0 > 0 && win.k1 > 0
    requires Y.Length == ColChannels(A, win) * (colRows * colCols)
    modifies Y
    ensures Size5(InterDims(A, win, colRows, colCols)) == Y.Length
    ensures forall s | 0 <= s < Y.Length ::
      Y[Perm(s, InterDims(A, win, colRows, colCols))] == PatchAt(A, win, colRows, colCols, s)
  {
    InterSize(A, win, colRows, colCols);
    var n := Y.Length;
    var T := FirstTranspose(A);
    var after := Gather(A, T, win, colRows, colCols);
    var dims := InterDims(A, win, colRows, colCols);
    var inter := new int[A.Length3 * win.k0 * win.k1 * colRows * colCols];
    FlatCopy(after, inter, n);
    var second := SecondTranspose(inter, dims);
    FlatCopy(second, Y, n);
    forall s | 0 <= s < n
      ensures Y[Perm(s, dims)] == PatchAt(A, win, colRows, colCols, s)
    {
      assert Y[Perm(s, dims)] == Y[..n][Perm(s, dims)];
      assert inter[s] == inter[..n][s];
    }
  }
}
