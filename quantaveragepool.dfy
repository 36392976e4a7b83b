/** QuantAvgPool2d (QONNX): average pooling whose result is scaled back to
    the accumulator and shifted right so that it fits `obits` bits. The
    window walk with its padding tests belongs to the pooling base class,
    which is not part of this model: the cells a window visits are given
    as a sequence, and the output extents as a parameter. */
module QuantAvgPool {
  import opened Tensors
  import opened Attributes

  // ---------------------------------------------------------------- attributes

  /** The node's fields: `data_layout` starts as "empty", the bit widths at
      0; `kernel_shape` and `strides` are the pooling base's vectors, which
      start empty. */
  datatype Config = Config(dataLayout: string, ibits: int, obits: int, kernelShape: seq<int>, strides: seq<int>)

  const Initial := Config("empty", 0, 0, [], [])

  /** `data_layout` must be a STRING and the bit widths INTs; `kernel` and
      `stride` are read with `a.i()`, which accepts any type, and every other
      name is skipped without a word. */
  predicate WellTyped(a: Attribute)
  {
    match a.name
    case "data_layout" => a.value.Text?
    case "ibits" => a.value.Int?
    case "obits" => a.value.Int?
    case _ => true
  }

  /** What `name` attributes push onto a vector: `a.i()`, twice, for each
      of them in order. */
  function Doubled(attrs: seq<Attribute>, name: string): seq<int>
  {
    if |attrs| == 0 then []
    else
      var a := attrs[|attrs| - 1];
      Doubled(attrs[..|attrs| - 1], name) + (if a.name == name then [IntField(a), IntField(a)] else [])
  }

  /** The values of the `name` attributes, once each, in order. */
  function Values(attrs: seq<Attribute>, name: string): seq<int>
  {
    if |attrs| == 0 then []
    else
      var a := attrs[|attrs| - 1];
      Values(attrs[..|attrs| - 1], name) + (if a.name == name then [IntField(a)] else [])
  }

  /** Each attribute contributes a pair: the vector is the attributes'
      values, each repeated once, so a single `kernel = k` gives a `k x k`
      kernel. */
  lemma {:induction false} DoubledPairs(attrs: seq<Attribute>, name: string)
    ensures |Doubled(attrs, name)| == 2 * |Values(attrs, name)|
    ensures forall i | 0 <= i < |Values(attrs, name)| ::
      Doubled(attrs, name)[2 * i] == Values(attrs, name)[i] && Doubled(attrs, name)[2 * i + 1] == Values(attrs, name)[i]
  {
    if |attrs| > 0 {
      DoubledPairs(attrs[..|attrs| - 1], name);
    }
  }

  lemma DoubledSnoc(attrs: seq<Attribute>, a: Attribute, name: string)
    ensures Doubled(attrs + [a], name) == Doubled(attrs, name) + (if a.name == name then [IntField(a), IntField(a)] else [])
  {
    assert (attrs + [a])[..|attrs|] == attrs;
  }

  /** The fields a well-typed attribute list leaves. */
  function Configured(attrs: seq<Attribute>): Config
  {
    Config(LastText(attrs, "data_layout", "empty"), LastInt(attrs, "ibits", 0), LastInt(attrs, "obits", 0),
           Doubled(attrs, "kernel"), Doubled(attrs, "stride"))
  }

  /** `parseAttributes`: the scalar fields are overwritten, `kernel` and
      `stride` push their value twice; a mistyped scalar aborts. */
  method ParseAttributes(attrs: seq<Attribute>) returns (r: Result<Config>)
    ensures r.Success? <==> forall k | 0 <= k < |attrs| :: WellTyped(attrs[k])
    ensures r.Success? ==> r.value == Configured(attrs)
    ensures r.Failure? ==> exists k :: FirstRefused(attrs, WellTyped, k) && r.error == BadAttribute(attrs[k].name)
  {
    var config := Initial;
    for k := 0 to |attrs|
      invariant forall m | 0 <= m < k :: WellTyped(attrs[m])
      invariant config == Configured(attrs[..k])
    {
      var a := attrs[k];
      if !WellTyped(a) {
        assert FirstRefused(attrs, WellTyped, k);
        return Failure(BadAttribute(a.name));
      }
      assert attrs[..k + 1] == attrs[..k] + [a];
      LastSnoc(attrs[..k], a, "data_layout");
      LastSnoc(attrs[..k], a, "ibits");
      LastSnoc(attrs[..k], a, "obits");
      DoubledSnoc(attrs[..k], a, "kernel");
      DoubledSnoc(attrs[..k], a, "stride");
      if a.name == "data_layout" {
        config := config.(dataLayout := a.value.s);
      }
      if a.name == "ibits" {
        config := config.(ibits := a.value.i);
      }
      if a.name == "kernel" {
        config := config.(kernelShape := config.kernelShape + [IntField(a), IntField(a)]);
      }
      if a.name == "obits" {
        config := config.(obits := a.value.i);
      }
      if a.name == "stride" {
        config := config.(strides := config.strides + [IntField(a), IntField(a)]);
      }
    }
    assert attrs[..|attrs|] == attrs;
    return Success(config);
  }

  /** One `kernel = 3` and one `stride = 2` attribute: a 3 x 3 kernel of area
      9 moving by 2 in both directions. */
  lemma SquareKernel()
    ensures var cfg := Configured([Attribute("kernel", Int(3)), Attribute("stride", Int(2))]);
      cfg.kernelShape == [3, 3] && cfg.strides == [2, 2] && Product(cfg.kernelShape) == 9
  {
    var attrs := [Attribute("kernel", Int(3)), Attribute("stride", Int(2))];
    assert attrs[..1] == [attrs[0]];
    assert attrs[..1][..0] == [];
    assert Doubled(attrs[..1], "kernel") == [3, 3];
    assert Doubled(attrs, "kernel") == [3, 3];
    assert Doubled(attrs[..1], "stride") == [];
    assert Doubled(attrs, "stride") == [2, 2];
    assert [3, 3][1..][1..] == [];
  }

  // ------------------------------------------------------------ one output cell

  /** The divisor of a cell's average: with `count_include_pad` the kernel's
      area, whether or not the window hangs over the padding; otherwise the
      number of input cells visited. */
  function Divisor(countIncludePad: bool, kernelShape: seq<int>, visited: nat): int
  {
    if countIncludePad then Product(kernelShape) else visited
  }

  /** The bound the shift is computed for: a window lying wholly inside the
      input, under the square kernel `[k0, k0]` the parser builds, visits
      `k0 * k0` cells, so both divisors agree; its `ibits`-bit inputs sum to
      at most `max_value`, and that sum, shifted, fits in `obits` bits. */
  lemma FullWindowFits(cfg: Config, xs: seq<int>)
    requires ShiftPlan(cfg).Success? && cfg.obits >= 0
    requires |cfg.kernelShape| == 2 && cfg.kernelShape[1] == cfg.kernelShape[0]
    requires |xs| == Product(cfg.kernelShape)
    requires forall i | 0 <= i < |xs| :: 0 <= xs[i] < Pow2(cfg.ibits)
    ensures var k0 := cfg.kernelShape[0];
      Divisor(true, cfg.kernelShape, |xs|) == Divisor(false, cfg.kernelShape, |xs|) == k0 * k0
    ensures 0 <= Sum(xs) <= MaxValue(cfg.ibits, cfg.kernelShape[0])
    ensures Sum(xs) / Pow2(ShiftPlan(cfg).value) < Pow2(cfg.obits)
  {
    var k0 := cfg.kernelShape[0];
    assert cfg.kernelShape[1..] == [k0] && cfg.kernelShape[1..][1..] == [];
    assert Product(cfg.kernelShape[1..][1..]) == 1;
    assert Product(cfg.kernelShape[1..]) == k0;
    SumBound(xs, cfg.ibits, |xs|);
    assert (Pow2(cfg.ibits) - 1) * (k0 * k0) == MaxValue(cfg.ibits, k0);
    ShiftedFits(cfg, Sum(xs));
  }

  /** `numavg` under `count_include_pad`: the product of `kernel_shape`,
      multiplied out from the first extent. */
  method KernelArea(kernelShape: seq<int>) returns (numavg: int)
    ensures numavg == Product(kernelShape)
  {
    numavg := 1;
    for i := 0 to |kernelShape|
      invariant numavg * Product(kernelShape[i..]) == Product(kernelShape)
    {
      assert kernelShape[i..][1..] == kernelShape[i + 1..];
      assert numavg * Product(kernelShape[i..]) == numavg * kernelShape[i] * Product(kernelShape[i + 1..]);
      numavg := numavg * kernelShape[i];
    }
    assert kernelShape[|kernelShape|..] == [];
  }

  /** The emitted cell code: `curavg` and `numavg` start at 0, each visited
      input cell `x` adds `x` and 1, and the finalizer replaces `numavg` by
      the kernel area under `count_include_pad`. The quotient is left out. */
  method Cell(xs: seq<int>, countIncludePad: bool, kernelShape: seq<int>) returns (curavg: int, numavg: int)
    ensures curavg == Sum(xs)
    ensures numavg == Divisor(countIncludePad, kernelShape, |xs|)
  {
    curavg := 0;
    numavg := 0;
    for i := 0 to |xs|
      invariant curavg == Sum(xs[..i]) && numavg == i
    {
      assert xs[..i + 1][..i] == xs[..i];
      numavg := numavg + 1;
      curavg := curavg + xs[i];
    }
    assert xs[..|xs|] == xs;
    if countIncludePad {
      numavg := KernelArea(kernelShape);
    }
  }

  /** A window of at most `m` cells, each an `ibits`-bit value below `2^ibits`,
      sums to at most `m * (2^ibits - 1)`. */
  lemma {:induction false} SumBound(xs: seq<int>, ibits: nat, m: nat)
    requires |xs| <= m
    requires forall i | 0 <= i < |xs| :: 0 <= xs[i] < Pow2(ibits)
    ensures 0 <= Sum(xs) <= (Pow2(ibits) - 1) * m
  {
    if |xs| > 0 {
      SumBound(xs[..|xs| - 1], ibits, m - 1);
      assert (Pow2(ibits) - 1) * m == (Pow2(ibits) - 1) * (m - 1) + (Pow2(ibits) - 1);
    } else {
      MulNonNegative(Pow2(ibits) - 1, m);
    }
  }

  // ------------------------------------------------------------ the shift

  /** 2^n, positive. */
  function Pow2(n: nat): (p: nat)
    ensures p >= 1
  {
    if n == 0 then 1 else 2 * Pow2(n - 1)
  }

  /** `max_value`: the largest sum a `k0 x k0` window of `ibits`-bit values reaches. */
  function MaxValue(ibits: nat, k0: int): int
  {
    (Pow2(ibits) - 1) * k0 * k0
  }

  /** The number of binary digits of a positive integer: `log2(v) + 1`,
      truncated. */
  function BitLength(v: int): nat
    requires v >= 1
    decreases v
  {
    if v == 1 then 1 else 1 + BitLength(v / 2)
  }

  /** `v` has `BitLength(v)` digits: it lies in `[2^(n-1), 2^n)`. */
  lemma {:induction false} BitLengthBounds(v: int)
    requires v >= 1
    ensures BitLength(v) >= 1
    ensures Pow2(BitLength(v) - 1) <= v < Pow2(BitLength(v))
  {
    if v > 1 {
      BitLengthBounds(v / 2);
    }
  }

  /** `shifts = bit_length - obits`, raised to 0 when not positive. */
  function Shifts(bitLength: int, obits: int): nat
  {
    if bitLength - obits <= 0 then 0 else bitLength - obits
  }

  /** The shift `print` computes from `ibits`, `obits` and the first kernel
      extent. The source takes `log2` of `max_value`, which is undefined
      unless `max_value` is positive, that is unless `ibits >= 1` and the
      kernel extent is non-zero; those cases, and a missing kernel, are
      failures here. */
  function ShiftPlan(cfg: Config): (r: Result<nat>)
    ensures r.Success? <==> |cfg.kernelShape| >= 1 && cfg.ibits >= 1 && cfg.kernelShape[0] != 0
    ensures |cfg.kernelShape| == 0 ==> r == Failure(MissingAttribute)
    ensures |cfg.kernelShape| >= 1 && r.Failure? ==> r == Failure(NoAccumulatorRange)
    ensures r.Success? ==> MaxValue(cfg.ibits, cfg.kernelShape[0]) >= 1
    ensures r.Success? && cfg.obits >= 0 ==> r.value <= BitLength(MaxValue(cfg.ibits, cfg.kernelShape[0]))
  {
    if |cfg.kernelShape| == 0 then Failure(MissingAttribute)
    else if cfg.ibits < 1 || cfg.kernelShape[0] == 0 then Failure(NoAccumulatorRange)
    else
      var k0 := cfg.kernelShape[0];
      assert Pow2(cfg.ibits) >= 2;
      MulNonZero(Pow2(cfg.ibits) - 1, k0);
      Success(Shifts(BitLength(MaxValue(cfg.ibits, k0)), cfg.obits))
  }

  lemma MulNonZero(x: int, k: int)
    requires x >= 1 && k != 0
    ensures x * k * k >= 1
  {
    if k > 0 {
      MulAtLeastOnce(k, k);
    } else {
      MulAtLeastOnce(-k, -k);
      assert (-k) * (-k) == k * k;
    }
    MulNonNegative(x - 1, k * k);
    assert x * k * k == (x - 1) * (k * k) + k * k;
  }

  lemma {:induction false} Pow2Add(a: nat, b: nat)
    ensures Pow2(a + b) == Pow2(a) * Pow2(b)
  {
    if b > 0 {
      Pow2Add(a, b - 1);
      assert Pow2(a + b) == 2 * Pow2(a + b - 1);
    }
  }

  lemma Pow2Monotone(a: nat, b: nat)
    requires a <= b
    ensures Pow2(a) <= Pow2(b)
  {
    Pow2Add(a, b - a);
    MulNonNegative(Pow2(a), Pow2(b - a) - 1);
    assert Pow2(a) * Pow2(b - a) == Pow2(a) * (Pow2(b - a) - 1) + Pow2(a);
  }

  /** A quotient by `d` reaches `p` when the dividend reaches `p * d`. */
  lemma DivAtLeast(v: int, p: int, d: int)
    requires d > 0 && p * d <= v
    ensures p <= v / d
  {
    var q := v / d;
    MulMonotone(q + 1, p, d);
    assert (q + 1) * d == q * d + d;
  }

  /** The shift does its job: every accumulator value up to `max_value`,
      shifted right by it, fits in `obits` bits. */
  lemma ShiftedFits(cfg: Config, acc: int)
    requires ShiftPlan(cfg).Success? && cfg.obits >= 0
    requires 0 <= acc <= MaxValue(cfg.ibits, cfg.kernelShape[0])
    ensures acc / Pow2(ShiftPlan(cfg).value) < Pow2(cfg.obits)
  {
    var v := MaxValue(cfg.ibits, cfg.kernelShape[0]);
    var n := BitLength(v);
    var s := ShiftPlan(cfg).value;
    BitLengthBounds(v);
    if s == 0 {
      Pow2Monotone(n, cfg.obits);
    } else {
      Pow2Add(cfg.obits, s);
      assert cfg.obits + s == n;
      DivBelow(acc, Pow2(cfg.obits), Pow2(s));
    }
  }

  /** ... and it is the least such shift: one place less would leave
      `max_value` too wide for `obits` bits. */
  lemma ShiftIsLeast(cfg: Config)
    requires ShiftPlan(cfg).Success? && cfg.obits >= 0 && ShiftPlan(cfg).value > 0
    ensures MaxValue(cfg.ibits, cfg.kernelShape[0]) / Pow2(ShiftPlan(cfg).value - 1) >= Pow2(cfg.obits)
  {
    var v := MaxValue(cfg.ibits, cfg.kernelShape[0]);
    var n := BitLength(v);
    var s := ShiftPlan(cfg).value;
    BitLengthBounds(v);
    Pow2Add(cfg.obits, s - 1);
    assert cfg.obits + (s - 1) == n - 1;
    DivAtLeast(v, Pow2(cfg.obits), Pow2(s - 1));
  }

  // ----------------------------------------------------------- the rescale loop

  /** `(uint32_t)(y * area) >> shifts` on an integer cell value: the
      conversion keeps the low 32 bits, the shift divides by `2^shifts`. */
  function Rescaled(y: int, area: int, shifts: nat): int
  {
    Wrap32(y * area) / Pow2(shifts)
  }

  /** An average whose scaled-back value is an accumulator within
      `max_value` (below 2^32) rescales into `obits` bits. */
  lemma RescaledFits(cfg: Config, y: int)
    requires ShiftPlan(cfg).Success? && cfg.obits >= 0
    requires var k0 := cfg.kernelShape[0]; 0 <= y * (k0 * k0) <= MaxValue(cfg.ibits, k0) < Uint32Modulus
    ensures Rescaled(y, cfg.kernelShape[0] * cfg.kernelShape[0], ShiftPlan(cfg).value) < Pow2(cfg.obits)
  {
    var acc := y * (cfg.kernelShape[0] * cfg.kernelShape[0]);
    ShiftedFits(cfg, acc);
    assert Wrap32(acc) == acc;
  }

  /** The emitted rescale loop: every `y[0][chan][r][c]` within `y`'s extents
      is replaced, once, by its rescaled value; other batches are untouched. */
  method Rescale(Y: array4<int>, area: int, shifts: nat)
    requires 1 <= Y.Length0
    modifies Y
    ensures forall ch, r, c | 0 <= ch < Y.Length1 && 0 <= r < Y.Length2 && 0 <= c < Y.Length3 ::
      Y[0, ch, r, c] == Rescaled(old(Y[0, ch, r, c]), area, shifts)
    ensures forall b, ch, r, c | 1 <= b < Y.Length0 && 0 <= ch < Y.Length1 && 0 <= r < Y.Length2 && 0 <= c < Y.Length3 ::
      Y[b, ch, r, c] == old(Y[b, ch, r, c])
  {
    for ch := 0 to Y.Length1
      invariant forall ch', r, c | 0 <= ch' < ch && 0 <= r < Y.Length2 && 0 <= c < Y.Length3 ::
        Y[0, ch', r, c] == Rescaled(old(Y[0, ch', r, c]), area, shifts)
      invariant forall b, ch', r, c | 0 <= b < Y.Length0 && 0 <= ch' < Y.Length1 && 0 <= r < Y.Length2 && 0 <= c < Y.Length3
        && (b > 0 || ch' >= ch) :: Y[b, ch', r, c] == old(Y[b, ch', r, c])
    {
      RescaleChannel(Y, area, shifts, ch);
    }
  }

  /** One channel of the rescale loop. */
  method RescaleChannel(Y: array4<int>, area: int, shifts: nat, ch: int)
    requires 1 <= Y.Length0 && 0 <= ch < Y.Length1
    modifies Y
    ensures forall r, c | 0 <= r < Y.Length2 && 0 <= c < Y.Length3 ::
      Y[0, ch, r, c] == Rescaled(old(Y[0, ch, r, c]), area, shifts)
    ensures forall b, ch', r, c | 0 <= b < Y.Length0 && 0 <= ch' < Y.Length1 && 0 <= r < Y.Length2 && 0 <= c < Y.Length3
      && (b > 0 || ch' != ch) :: Y[b, ch', r, c] == old(Y[b, ch', r, c])
  {
    for r := 0 to Y.Length2
      invariant forall r', c | 0 <= r' < r && 0 <= c < Y.Length3 ::
        Y[0, ch, r', c] == Rescaled(old(Y[0, ch, r', c]), area, shifts)
      invariant forall b, ch', r', c | 0 <= b < Y.Length0 && 0 <= ch' < Y.Length1 && 0 <= r' < Y.Length2 && 0 <= c < Y.Length3
        && (b > 0 || ch' != ch || r' >= r) :: Y[b, ch', r', c] == old(Y[b, ch', r', c])
    {
      for c := 0 to Y.Length3
        invariant forall r', c' | 0 <= r' < r && 0 <= c' < Y.Length3 ::
          Y[0, ch, r', c'] == Rescaled(old(Y[0, ch, r', c']), area, shifts)
        invariant forall c' | 0 <= c' < c :: Y[0, ch, r, c'] == Rescaled(old(Y[0, ch, r, c']), area, shifts)
        invariant forall b, ch', r', c' | 0 <= b < Y.Length0 && 0 <= ch' < Y.Length1 && 0 <= r' < Y.Length2 && 0 <= c' < Y.Length3
          && (b > 0 || ch' != ch || r' > r || (r' == r && c' >= c)) :: Y[b, ch', r', c'] == old(Y[b, ch', r', c'])
      {
        Y[0, ch, r, c] := Wrap32(Y[0, ch, r, c] * area) / Pow2(shifts);
      }
    }
  }

  // ------------------------------------------------------------------- resolve

  datatype Outputs = Outputs(y: Tensor, ind: Tensor)

  /** `resolve`: `y` takes the extents the pooling base computes
      (`outputDims`) and the input's element type; the optional indices
      output `ind` has the same extents and is INT64. */
  function Resolve(X: Tensor, outputDims: seq<int>): (r: Outputs)
    ensures r.y.dims == outputDims && r.y.dtype == X.dtype
    ensures r.ind.dims == r.y.dims && r.ind.dtype == Int64
  {
    Outputs(Tensor(outputDims, X.dtype), Tensor(outputDims, Int64))
  }

  // ------------------------------------------------------- resolve and print

  /** The extents of a rank-4 buffer, outermost first. */
  function Extents(a: array4<int>): seq<int>
  {
    [a.Length0, a.Length1, a.Length2, a.Length3]
  }

  /** `print`'s epilogue on the output `y` of the extents `resolve` gave it
      (the pooling loop before it belongs to the pooling base): the shift
      is `ShiftPlan`'s, and every cell of batch 0 within `y`'s extents is
      rescaled by the kernel area `k0 * k0`; a cell whose scaled-back value
      lies within `max_value` ends within `obits` bits. */
  method Print(cfg: Config, X: Tensor, outputDims: seq<int>, Y: array4<int>) returns (r: Result<nat>)
    requires Extents(Y) == Resolve(X, outputDims).y.dims && outputDims[0] >= 1
    modifies Y
    ensures r == ShiftPlan(cfg)
    ensures r.Failure? ==> unchanged(Y)
    ensures r.Success? ==>
      var area := cfg.kernelShape[0] * cfg.kernelShape[0];
      forall ch, row, c | 0 <= ch < outputDims[1] && 0 <= row < outputDims[2] && 0 <= c < outputDims[3] ::
        Y[0, ch, row, c] == Rescaled(old(Y[0, ch, row, c]), area, r.value)
    ensures forall b, ch, row, c | 1 <= b < outputDims[0] && 0 <= ch < outputDims[1] && 0 <= row < outputDims[2] && 0 <= c < outputDims[3] ::
      Y[b, ch, row, c] == old(Y[b, ch, row, c])
    ensures r.Success? && cfg.obits >= 0 ==>
      var k0 := cfg.kernelShape[0];
      forall ch, row, c | 0 <= ch < outputDims[1] && 0 <= row < outputDims[2] && 0 <= c < outputDims[3]
        && 0 <= old(Y[0, ch, row, c]) * (k0 * k0) <= MaxValue(cfg.ibits, k0) < Uint32Modulus ::
        Y[0, ch, row, c] < Pow2(cfg.obits)
  {
    r := ShiftPlan(cfg);
    if r.Failure? {
      return;
    }
    var area := cfg.kernelShape[0] * cfg.kernelShape[0];
    Rescale(Y, area, r.value);
    if cfg.obits >= 0 {
      var k0 := cfg.kernelShape[0];
      forall ch, row, c | 0 <= ch < outputDims[1] && 0 <= row < outputDims[2] && 0 <= c < outputDims[3]
        && 0 <= old(Y[0, ch, row, c]) * (k0 * k0) <= MaxValue(cfg.ibits, k0) < Uint32Modulus
        ensures Y[0, ch, row, c] < Pow2(cfg.obits)
      {
        RescaledFits(cfg, old(Y[0, ch, row, c]));
      }
    }
  }
}
