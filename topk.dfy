/** TopK, in the one configuration the lowering implements: the largest
    element of the row `A[0]` and its index (K = 1, `largest` = 1). */
module TopK {
  import opened Tensors
  import opened Attributes

  // ---------------------------------------------------------------- attributes

  /** The node's integer fields. None of them has an initialiser in the
      source, so each is `None` until an attribute sets it. */
  datatype Config = Config(axis: Option<int>, largest: Option<int>, sorted: Option<int>)

  /** A known attribute must be an INT; an unknown one is logged and ignored. */
  predicate WellTyped(a: Attribute)
  {
    (a.name == "axis" || a.name == "largest" || a.name == "sorted") ==> a.value.Int?
  }

  /** The fields a well-typed attribute list leaves. */
  function Configured(attrs: seq<Attribute>): Config
  {
    Config(LastIntOpt(attrs, "axis"), LastIntOpt(attrs, "largest"), LastIntOpt(attrs, "sorted"))
  }

  /** `parseAttributes`: each known attribute overwrites its field, a
      mistyped one aborts, an unknown one is skipped. */
  method ParseAttributes(attrs: seq<Attribute>) returns (r: Result<Config>)
    ensures r.Success? <==> forall k | 0 <= k < |attrs| :: WellTyped(attrs[k])
    ensures r.Success? ==> r.value == Configured(attrs)
    ensures r.Failure? ==> exists k :: FirstRefused(attrs, WellTyped, k) && r.error == BadAttribute(attrs[k].name)
  {
    var config := Config(None, None, None);
    for k := 0 to |attrs|
      invariant forall m | 0 <= m < k :: WellTyped(attrs[m])
      invariant config == Configured(attrs[..k])
    {
      var a := attrs[k];
      if !WellTyped(a) {
        assert FirstRefused(attrs, WellTyped, k);
        return Failure(BadAttribute(a.name));
      }
      assert attrs[..k + 1] == attrs[..k] + [a];
      LastSnoc(attrs[..k], a, "axis");
      LastSnoc(attrs[..k], a, "largest");
      LastSnoc(attrs[..k], a, "sorted");
      if a.name == "axis" {
        config := config.(axis := Some(a.value.i));
      } else if a.name == "largest" {
        config := config.(largest := Some(a.value.i));
      } else if a.name == "sorted" {
        config := config.(sorted := Some(a.value.i));
      }
    }
    assert attrs[..|attrs|] == attrs;
    return Success(config);
  }

  // ------------------------------------------------------------------- resolve

  datatype Outputs = Outputs(values: Tensor, indices: Tensor)

  /** `resolve`: both outputs are `[1, K]`, with K the first element of the
      second input's constant data; `values` is FLOAT and `indices` INT64. */
  function Resolve(kData: seq<int>): (r: Outputs)
    requires |kData| >= 1
    ensures r.values.dims == r.indices.dims == [1, kData[0]]
    ensures r.values.dtype == Float && r.indices.dtype == Int64
  {
    Outputs(Tensor([1, kData[0]], Float), Tensor([1, kData[0]], Int64))
  }

  // --------------------------------------------------------------------- print

  /** ONNX's default for `largest`. */
  const DefaultLargest := 1

  /** `print`'s guard as written: the field `largest` must hold 1. When no
      attribute set it, the field holds whatever the object's memory held. */
  function PrintPlanAsWritten(largestField: int, a: seq<int>): (r: Result<int>)
    requires |a| >= 2
    ensures r.Success? <==> largestField == 1
    ensures r.Success? ==> r.value == a[1]
    ensures r.Failure? ==> r.error == UnsupportedLargest
  {
    if largestField != 1 then Failure(UnsupportedLargest) else Success(a[1])
  }

  /** `print`'s guard with the ONNX default in place: only `largest = 1` has
      a loop; the loop runs over the `A[1]` elements of the row `A[0]`. */
  function PrintPlan(config: Config, a: seq<int>): (r: Result<int>)
    requires |a| >= 2
    ensures r.Success? <==> config.largest.None? || config.largest.value == 1
    ensures r.Success? ==> r.value == a[1]
    ensures r.Failure? ==> r.error == UnsupportedLargest
  {
    var largest := if config.largest.Some? then config.largest.value else DefaultLargest;
    PrintPlanAsWritten(largest, a)
  }

  /** A TopK node without a `largest` attribute: as written, `print` compares
      an uninitialised field with 1 and refuses the node whenever the memory
      held, say, 0; with the ONNX default it is accepted. */
  lemma AbsentLargest(a: seq<int>)
    requires |a| >= 2
    ensures Configured([]).largest == None
    ensures PrintPlanAsWritten(0, a) == Failure(UnsupportedLargest)
    ensures PrintPlan(Configured([]), a) == Success(a[1])
  {
  }

  /** The unsigned 64-bit value `indice` starts from: `-9` converted to `uint64_t`. */
  const NoIndex: int := 0x1_0000_0000_0000_0000 - 9

  /** The value an `int64_t` cell receives from a `uint64_t` (two's complement). */
  function ToInt64(x: int): int
    requires 0 <= x < 0x1_0000_0000_0000_0000
  {
    if x < 0x8000_0000_0000_0000 then x else x - 0x1_0000_0000_0000_0000
  }

  /** The emitted scan: `max` starts at `lowest` (the source's `-FLT_MAX`),
      `indice` at `NoIndex`, and each `A[0][r]` strictly greater than `max`
      replaces both. If some element exceeds `lowest`, the result is the
      maximum of the row and the index of its first occurrence; otherwise the
      scan returns its starting values. */
  method Scan(A: array2<int>, rows: nat, lowest: int) returns (max: int, indice: int)
    requires 1 <= A.Length0 && rows <= A.Length1
    ensures (forall r | 0 <= r < rows :: A[0, r] <= lowest) ==> max == lowest && indice == NoIndex
    ensures (exists r | 0 <= r < rows :: A[0, r] > lowest) ==>
      && 0 <= indice < rows
      && max == A[0, indice]
      && (forall r | 0 <= r < rows :: A[0, r] <= max)
      && (forall r | 0 <= r < indice :: A[0, r] < max)
  {
    max := lowest;
    indice := NoIndex;
    for r := 0 to rows
      invariant (forall r' | 0 <= r' < r :: A[0, r'] <= lowest) ==> max == lowest && indice == NoIndex
      invariant (exists r' | 0 <= r' < r :: A[0, r'] > lowest) ==>
        && 0 <= indice < r
        && max == A[0, indice]
        && max > lowest
        && (forall r' | 0 <= r' < r :: A[0, r'] <= max)
        && (forall r' | 0 <= r' < indice :: A[0, r'] < max)
    {
      if A[0, r] > max {
        max := A[0, r];
        indice := r;
      }
    }
  }

  /** `print`'s loop and its two stores: only `values[0][0]` and
      `indices[0][0]` are written, the latter with the index converted to
      INT64 (so an unset index reads -9). The trip count is an `int32_t`. */
  method Print(A: array2<int>, rows: nat, lowest: int, values: array2<int>, indices: array2<int>)
    requires 1 <= A.Length0 && rows <= A.Length1 && rows < 0x8000_0000
    requires 1 <= values.Length0 && 1 <= values.Length1 && 1 <= indices.Length0 && 1 <= indices.Length1
    requires values != indices && values != A && indices != A
    modifies values, indices
    ensures (forall r | 0 <= r < rows :: A[0, r] <= lowest) ==> values[0, 0] == lowest && indices[0, 0] == -9
    ensures (exists r | 0 <= r < rows :: A[0, r] > lowest) ==>
      && 0 <= indices[0, 0] < rows
      && values[0, 0] == A[0, indices[0, 0]]
      && (forall r | 0 <= r < rows :: A[0, r] <= values[0, 0])
      && (forall r | 0 <= r < indices[0, 0] :: A[0, r] < values[0, 0])
    ensures forall i, j | 0 <= i < values.Length0 && 0 <= j < values.Length1 && (i, j) != (0, 0) ::
      values[i, j] == old(values[i, j])
    ensures forall i, j | 0 <= i < indices.Length0 && 0 <= j < indices.Length1 && (i, j) != (0, 0) ::
      indices[i, j] == old(indices[i, j])
  {
    var max, indice := Scan(A, rows, lowest);
    values[0, 0] := max;
    indices[0, 0] := ToInt64(indice);
  }

  // ------------------------------------------------------- resolve and print

  /** The extents of an output buffer, outermost first. */
  function Extents(a: array2<int>): seq<int>
  {
    [a.Length0, a.Length1]
  }

  /** `print` run on output buffers of the extents `resolve` gave them: for
      any K of at least 1 the buffers are large enough for the two stores,
      and of the K cells of each output only the first is written (the
      lowering implements K = 1 only). */
  method PrintResolved(A: array2<int>, rows: nat, lowest: int, kData: seq<int>,
                       values: array2<int>, indices: array2<int>)
    requires 1 <= A.Length0 && rows <= A.Length1 && rows < 0x8000_0000
    requires |kData| >= 1 && kData[0] >= 1
    requires Extents(values) == Resolve(kData).values.dims && Extents(indices) == Resolve(kData).indices.dims
    requires values != indices && values != A && indices != A
    modifies values, indices
    ensures (forall r | 0 <= r < rows :: A[0, r] <= lowest) ==> values[0, 0] == lowest && indices[0, 0] == -9
    ensures (exists r | 0 <= r < rows :: A[0, r] > lowest) ==>
      && 0 <= indices[0, 0] < rows
      && values[0, 0] == A[0, indices[0, 0]]
      && (forall r | 0 <= r < rows :: A[0, r] <= values[0, 0])
      && (forall r | 0 <= r < indices[0, 0] :: A[0, r] < values[0, 0])
    ensures forall j | 1 <= j < kData[0] :: values[0, j] == old(values[0, j]) && indices[0, j] == old(indices[0, j])
  {
    Print(A, rows, lowest, values, indices);
  }
}
