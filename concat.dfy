/** Concat: joins its inputs along one axis. `resolve` checks the inputs
    against input 0 and sums their extents along the axis; the code `print`
    emits copies each input, in order, into the flat output through a running
    output cursor that skips the other inputs' blocks. */
module Concat {
  import opened Tensors
  import opened Attributes

  /** What `resolve` settles: the axis counted from the front (the source
      writes it back into the node, where `print` reads it) and the output. */
  datatype Resolution = Resolution(axis: nat, output: Tensor)

  // ---------------------------------------------------------------- attributes

  /** The one attribute Concat knows: `axis`, an INT. */
  predicate Accepted(a: Attribute)
  {
    a.name == "axis" && a.value.Int?
  }

  function Refusal(a: Attribute): Fault
  {
    if a.name == "axis" then BadAttribute(a.name) else UnknownAttribute(a.name)
  }

  /** `parseAttributes`: every attribute must be an INT called `axis`; the
      last one wins, and without one the axis is 1. */
  method ParseAttributes(attrs: seq<Attribute>) returns (r: Result<int>)
    ensures r.Success? <==> forall k | 0 <= k < |attrs| :: Accepted(attrs[k])
    ensures r.Success? ==> r.value == LastInt(attrs, "axis", 1)
    ensures r.Failure? ==> exists k :: FirstRefused(attrs, Accepted, k) && r.error == Refusal(attrs[k])
  {
    var axis := 1;
    for k := 0 to |attrs|
      invariant forall m | 0 <= m < k :: Accepted(attrs[m])
      invariant axis == LastInt(attrs[..k], "axis", 1)
    {
      var a := attrs[k];
      if a.name != "axis" || !a.value.Int? {
        assert FirstRefused(attrs, Accepted, k);
        return Failure(Refusal(a));
      }
      axis := a.value.i;
      assert attrs[..k + 1] == attrs[..k] + [a];
      LastSnoc(attrs[..k], a, "axis");
    }
    assert attrs[..|attrs|] == attrs;
    return Success(axis);
  }

  // ------------------------------------------------------------------- resolve

  /** A negative axis counts from the end. */
  function NormalisedAxis(axis: int, rank: nat): int
  {
    if axis < 0 then rank + axis else axis
  }

  /** `d` has the rank of `dims0` and its extents on every axis but `axis`. */
  predicate Agrees(dims0: seq<int>, d: seq<int>, axis: nat)
  {
    |d| == |dims0| && forall j | 0 <= j < |d| && j != axis :: d[j] == dims0[j]
  }

  predicate AllAgree(inputs: seq<Tensor>, axis: nat)
    requires |inputs| >= 1
  {
    forall k | 0 <= k < |inputs| :: Agrees(inputs[0].dims, inputs[k].dims, axis)
  }

  /** The inputs' extents along `axis`, added up. */
  function AxisTotal(inputs: seq<Tensor>, axis: nat): int
    requires forall k | 0 <= k < |inputs| :: axis < |inputs[k].dims|
  {
    if |inputs| == 0 then 0
    else AxisTotal(inputs[..|inputs| - 1], axis) + inputs[|inputs| - 1].dims[axis]
  }

  /** The checks `resolve` makes of input `k`: its rank, then its other extents. */
  function CheckInput(inputs: seq<Tensor>, axis: nat, k: nat): Option<Fault>
    requires k < |inputs|
  {
    if |inputs[k].dims| != |inputs[0].dims| then Some(RankMismatch(k))
    else if !Agrees(inputs[0].dims, inputs[k].dims, axis) then Some(ShapeMismatch(k))
    else None
  }

  /** The first fault of `resolve`'s loop over the inputs, from input `from` on. */
  function FirstFault(inputs: seq<Tensor>, axis: nat, from: nat): (r: Option<Fault>)
    requires 1 <= |inputs| && from <= |inputs|
    ensures r.None? <==> forall k | from <= k < |inputs| :: Agrees(inputs[0].dims, inputs[k].dims, axis)
    ensures r.Some? ==> exists k | from <= k < |inputs| ::
      (forall m | from <= m < k :: Agrees(inputs[0].dims, inputs[m].dims, axis)) && r == CheckInput(inputs, axis, k)
    decreases |inputs| - from
  {
    if from == |inputs| then None
    else if CheckInput(inputs, axis, from).Some? then CheckInput(inputs, axis, from)
    else FirstFault(inputs, axis, from + 1)
  }

  /** `resolve`: the output has input 0's rank, element type and extents,
      except along the (normalised) axis, where it has the sum of every
      input's extent. A single input is allowed (the source only warns). */
  function Resolve(inputs: seq<Tensor>, axis: int): (r: Result<Resolution>)
    requires |inputs| >= 1
    ensures var a := NormalisedAxis(axis, |inputs[0].dims|);
      r.Success? <==> 0 <= a < |inputs[0].dims| && AllAgree(inputs, a)
    ensures r.Success? ==>
      && r.value.axis == NormalisedAxis(axis, |inputs[0].dims|)
      && r.value.output.dtype == inputs[0].dtype
      && |r.value.output.dims| == |inputs[0].dims|
      && (forall j | 0 <= j < |inputs[0].dims| && j != r.value.axis ::
            r.value.output.dims[j] == inputs[0].dims[j])
      && r.value.output.dims[r.value.axis] == AxisTotal(inputs, r.value.axis)
    ensures r.Failure? ==>
      var a := NormalisedAxis(axis, |inputs[0].dims|);
      if 0 <= a < |inputs[0].dims| then
        exists k | 0 < k < |inputs| ::
          && (forall m | 0 <= m < k :: Agrees(inputs[0].dims, inputs[m].dims, a))
          && !Agrees(inputs[0].dims, inputs[k].dims, a)
          && r.error == if |inputs[k].dims| != |inputs[0].dims| then RankMismatch(k) else ShapeMismatch(k)
      else r.error == AxisOutOfRange
  {
    var rank := |inputs[0].dims|;
    var a := NormalisedAxis(axis, rank);
    if !(0 <= a < rank) then Failure(AxisOutOfRange)
    else
      var fault := FirstFault(inputs, a, 0);
      if fault.Some? then Failure(fault.value)
      else Success(Resolution(a, Tensor(inputs[0].dims[a := AxisTotal(inputs, a)], inputs[0].dtype)))
  }

  /** A single input resolves to itself: concatenating one tensor is the identity. */
  lemma SingleInput(t: Tensor, axis: int)
    requires -|t.dims| <= axis < |t.dims|
    ensures Resolve([t], axis) == Success(Resolution(NormalisedAxis(axis, |t.dims|), t))
  {
    var a := NormalisedAxis(axis, |t.dims|);
    assert [t][..0] == [];
    assert AxisTotal([t], a) == t.dims[a];
    assert t.dims[a := t.dims[a]] == t.dims;
  }

  /** `[2,3]` and `[2,4]` joined on axis 1, or on axis -1, give `[2,7]`. */
  lemma TwoByThreeAndTwoByFour()
    ensures Resolve([Tensor([2, 3], Float), Tensor([2, 4], Float)], 1)
         == Success(Resolution(1, Tensor([2, 7], Float)))
    ensures Resolve([Tensor([2, 3], Float), Tensor([2, 4], Float)], -1)
         == Success(Resolution(1, Tensor([2, 7], Float)))
  {
    var inputs := [Tensor([2, 3], Float), Tensor([2, 4], Float)];
    assert inputs[..1][..0] == [];
    assert inputs[..1] == [inputs[0]];
    assert AxisTotal(inputs, 1) == 7;
    assert [2, 3][1 := 7] == [2, 7];
  }

  // ------------------------------------------------------- print: the pitches

  /** `print`'s pitch loop: the extents of `dims` from `axis` on, multiplied
      from the last one down; the number of consecutive elements that one step
      along `axis` spans (`axisPitch` for the output, `inputAxisPitch` for an input). */
  method AxisPitch(dims: seq<int>, axis: nat) returns (pitch: int)
    requires axis <= |dims|
    ensures pitch == Product(dims[axis..])
  {
    pitch := 1;
    var i := |dims| - 1;
    while i >= axis
      invariant axis - 1 <= i < |dims|
      invariant pitch == Product(dims[i + 1..])
    {
      assert dims[i..][1..] == dims[i + 1..];
      pitch := pitch * dims[i];
      i := i - 1;
    }
  }

  /** Every input's `inputAxisPitch`, in input order. */
  function Pitches(inputs: seq<Tensor>, axis: nat): (ps: seq<int>)
    requires forall k | 0 <= k < |inputs| :: axis <= |inputs[k].dims|
    ensures |ps| == |inputs|
    ensures forall k | 0 <= k < |inputs| :: ps[k] == Product(inputs[k].dims[axis..])
  {
    seq(|inputs|, k requires 0 <= k < |inputs| => Product(inputs[k].dims[axis..]))
  }

  /** The inputs' pitches add up to the output's: every outer slice of the
      output is exactly one block from each input. */
  lemma PitchesSumToAxisPitch(inputs: seq<Tensor>, axis: int, res: Resolution)
    requires |inputs| >= 1 && Resolve(inputs, axis) == Success(res)
    ensures Sum(Pitches(inputs, res.axis)) == Product(res.output.dims[res.axis..])
  {
    var a := res.axis;
    var inner := Product(inputs[0].dims[a + 1..]);
    forall k | 0 <= k < |inputs|
      ensures Product(inputs[k].dims[a..]) == inputs[k].dims[a] * inner
    {
      assert inputs[k].dims[a..][1..] == inputs[k].dims[a + 1..] == inputs[0].dims[a + 1..];
    }
    ScaledSum(inputs, a, inner);
    assert res.output.dims[a..][1..] == res.output.dims[a + 1..] == inputs[0].dims[a + 1..];
  }

  lemma {:induction false} ScaledSum(inputs: seq<Tensor>, a: nat, inner: int)
    requires forall k | 0 <= k < |inputs| :: a < |inputs[k].dims|
    requires forall k | 0 <= k < |inputs| :: Product(inputs[k].dims[a..]) == inputs[k].dims[a] * inner
    ensures Sum(Pitches(inputs, a)) == AxisTotal(inputs, a) * inner
  {
    if |inputs| > 0 {
      var n := |inputs| - 1;
      ScaledSum(inputs[..n], a, inner);
      assert Pitches(inputs, a)[..n] == Pitches(inputs[..n], a);
      assert AxisTotal(inputs, a) * inner == AxisTotal(inputs[..n], a) * inner + inputs[n].dims[a] * inner;
    }
  }

  /** Each input is `outer` slices of its pitch, and so is the output, where
      `outer` is the product of the extents before the axis. */
  lemma ShapeFactors(inputs: seq<Tensor>, axis: int, res: Resolution)
    requires |inputs| >= 1 && Resolve(inputs, axis) == Success(res)
    ensures forall k | 0 <= k < |inputs| ::
      Product(inputs[k].dims) == Product(inputs[0].dims[..res.axis]) * Pitches(inputs, res.axis)[k]
    ensures Product(res.output.dims) == Product(inputs[0].dims[..res.axis]) * Product(res.output.dims[res.axis..])
  {
    var a := res.axis;
    forall k | 0 <= k < |inputs|
      ensures Product(inputs[k].dims) == Product(inputs[0].dims[..a]) * Pitches(inputs, a)[k]
    {
      ProductSplit(inputs[k].dims, a);
      assert inputs[k].dims[..a] == inputs[0].dims[..a];
    }
    ProductSplit(res.output.dims, a);
    assert res.output.dims[..a] == inputs[0].dims[..a];
  }

  // ---------------------------------------------- print: where elements land

  /** Where input `k`'s block starts within each outer slice of the output:
      the pitches of the inputs before it (`outputBase`). */
  function Base(pitches: seq<int>, k: nat): int
    requires k <= |pitches|
  {
    Sum(pitches[..k])
  }

  /** The output position the emitted copy gives element `i` of input `k`. */
  function Destination(pitches: seq<int>, k: nat, i: int): int
    requires k < |pitches| && pitches[k] > 0
  {
    Base(pitches, k) + (i / pitches[k]) * Sum(pitches) + i % pitches[k]
  }

  /** An element of one of the inputs: which input, and where in its flat data. */
  datatype Origin = Origin(input: nat, offset: int)

  lemma {:induction false} SumNonNegative(s: seq<int>)
    requires WellFormed(s)
    ensures Sum(s) >= 0
  {
    if |s| > 0 {
      SumNonNegative(s[..|s| - 1]);
    }
  }

  /** Blocks follow one another: block `k1` ends where a later block `k2` can start at the earliest. */
  lemma {:induction false} BaseOrder(pitches: seq<int>, k1: nat, k2: nat)
    requires WellFormed(pitches) && k1 < |pitches| && k2 <= |pitches|
    ensures k1 < k2 ==> Base(pitches, k1) + pitches[k1] <= Base(pitches, k2)
  {
    if k1 < k2 {
      assert pitches[..k2][..k2 - 1] == pitches[..k2 - 1];
      if k1 < k2 - 1 {
        BaseOrder(pitches, k1, k2 - 1);
      }
    }
  }

  /** The input whose block covers position `q` of an outer slice. */
  function Block(pitches: seq<int>, q: int): (k: nat)
    requires WellFormed(pitches) && 0 <= q < Sum(pitches)
    ensures k < |pitches| && Base(pitches, k) <= q < Base(pitches, k) + pitches[k]
  {
    var n := |pitches| - 1;
    assert pitches[..n + 1] == pitches;
    if q >= Sum(pitches[..n]) then n
    else
      var k := Block(pitches[..n], q);
      assert pitches[..n][..k] == pitches[..k];
      k
  }

  /** Only one block covers a position. */
  lemma BlockIs(pitches: seq<int>, q: int, k: nat)
    requires WellFormed(pitches) && k < |pitches| && Base(pitches, k) <= q < Base(pitches, k) + pitches[k]
    ensures 0 <= q < Sum(pitches) && Block(pitches, q) == k
  {
    SumNonNegative(pitches[..k]);
    BaseOrder(pitches, k, |pitches|);
    assert pitches[..|pitches|] == pitches;
    var k' := Block(pitches, q);
    BaseOrder(pitches, k, k');
    BaseOrder(pitches, k', k);
  }

  /** The reference meaning of concatenation along an axis of row-major data:
      the output is `outer` slices, each the inputs' blocks side by side, so
      output position `p` holds the element of input `k` that sits in the same
      slice at the same place within `k`'s block. */
  function OriginOf(pitches: seq<int>, outer: int, p: int): (o: Origin)
    requires WellFormed(pitches) && 0 <= p < outer * Sum(pitches)
    ensures o.input < |pitches| && pitches[o.input] > 0 && 0 <= o.offset < outer * pitches[o.input]
  {
    SumNonNegative(pitches);
    var total := Sum(pitches);
    DivBelow(p, outer, total);
    var k := Block(pitches, p % total);
    var within := p % total - Base(pitches, k);
    MulAddBelow(p / total, within, outer, pitches[k]);
    Origin(k, (p / total) * pitches[k] + within)
  }

  /** Element `i` of input `k` lands inside the output, at a position whose
      origin is that same element: no two elements share a position. */
  lemma DestinationOrigin(pitches: seq<int>, outer: int, k: nat, i: int)
    requires WellFormed(pitches) && k < |pitches| && pitches[k] > 0 && 0 <= i < outer * pitches[k]
    ensures 0 <= Destination(pitches, k, i) < outer * Sum(pitches)
    ensures OriginOf(pitches, outer, Destination(pitches, k, i)) == Origin(k, i)
  {
    var pk, total := pitches[k], Sum(pitches);
    DivBelow(i, outer, pk);
    var slice, within := i / pk, i % pk;
    var q := Base(pitches, k) + within;
    BlockIs(pitches, q, k);
    var d := Destination(pitches, k, i);
    assert d == slice * total + q;
    MulAddBelow(slice, q, outer, total);
    DivModUnique(d, total, slice, q);
  }

  /** Every output position is where its origin lands: the copies cover the
      whole output. */
  lemma OriginDestination(pitches: seq<int>, outer: int, p: int)
    requires WellFormed(pitches) && 0 <= p < outer * Sum(pitches)
    ensures Destination(pitches, OriginOf(pitches, outer, p).input, OriginOf(pitches, outer, p).offset) == p
  {
    SumNonNegative(pitches);
    var total := Sum(pitches);
    DivBelow(p, outer, total);
    var o := OriginOf(pitches, outer, p);
    var k := o.input;
    var within := p % total - Base(pitches, k);
    DivModUnique(o.offset, pitches[k], p / total, within);
  }

  /** An `R x C1` and an `R x C2` matrix joined along axis 1: element `(r, c)`
      of the first lands at `(r, c)` of the `R x (C1 + C2)` result, and
      element `(r, c)` of the second at `(r, C1 + c)`. */
  lemma SideBySide(C1: int, C2: int, r: int, c: int)
    requires C1 > 0 && C2 > 0 && r >= 0 && c >= 0
    ensures c < C1 ==> Destination([C1, C2], 0, r * C1 + c) == r * (C1 + C2) + c
    ensures c < C2 ==> Destination([C1, C2], 1, r * C2 + c) == r * (C1 + C2) + C1 + c
  {
    assert [C1, C2][..0] == [];
    assert [C1, C2][..1] == [C1];
    assert [C1, C2][..2] == [C1, C2];
    assert [C1, C2][..1][..0] == [];
    assert Sum([C1]) == C1;
    assert Sum([C1, C2]) == C1 + C2;
    if c < C1 {
      DivModUnique(r * C1 + c, C1, r, c);
    }
    if c < C2 {
      DivModUnique(r * C2 + c, C2, r, c);
    }
  }

  // ------------------------------------------------- print: the copy loops

  /** What `print` needs: a successful resolution, tensors that hold data, and
      one flat data sequence per input of that input's element count. */
  predicate Ready(inputs: seq<Tensor>, axis: int, res: Resolution, data: seq<seq<int>>)
  {
    && |inputs| >= 1
    && Resolve(inputs, axis) == Success(res)
    && (forall k | 0 <= k < |inputs| :: WellFormed(inputs[k].dims))
    && |data| == |inputs|
    && (forall k | 0 <= k < |inputs| :: |data[k]| == Product(inputs[k].dims))
  }

  /** The number of outer slices: the product of the extents before the axis. */
  function Outer(inputs: seq<Tensor>, res: Resolution): int
    requires |inputs| >= 1 && res.axis <= |inputs[0].dims|
  {
    Product(inputs[0].dims[..res.axis])
  }

  /** The facts about the shapes the copy relies on: the pitches are
      non-negative, every input is `Outer` slices of its pitch, and the output
      is `Outer` slices of their sum. */
  lemma Layout(inputs: seq<Tensor>, axis: int, res: Resolution, data: seq<seq<int>>)
    requires Ready(inputs, axis, res, data)
    ensures WellFormed(Pitches(inputs, res.axis))
    ensures Outer(inputs, res) >= 0
    ensures Product(res.output.dims) == Outer(inputs, res) * Sum(Pitches(inputs, res.axis))
    ensures forall k | 0 <= k < |inputs| :: |data[k]| == Outer(inputs, res) * Pitches(inputs, res.axis)[k]
  {
    ShapeFactors(inputs, axis, res);
    PitchesSumToAxisPitch(inputs, axis, res);
    forall k | 0 <= k < |inputs|
      ensures Pitches(inputs, res.axis)[k] >= 0
    {
      ProductNonNegative(inputs[k].dims[res.axis..]);
    }
    ProductNonNegative(inputs[0].dims[..res.axis]);
  }

  /** `out` is the concatenation of `data` along the resolved axis. */
  ghost predicate IsConcatenation(inputs: seq<Tensor>, axis: int, res: Resolution, data: seq<seq<int>>, out: seq<int>)
    requires Ready(inputs, axis, res, data)
  {
    Layout(inputs, axis, res, data);
    var ps, outer := Pitches(inputs, res.axis), Outer(inputs, res);
    && |out| == Product(res.output.dims)
    && forall p | 0 <= p < |out| ::
         out[p] == data[OriginOf(ps, outer, p).input][OriginOf(ps, outer, p).offset]
  }

  /** The copy `print` emits: each input in turn goes to the output through
      `CopyInput`, with `outputBase` advanced by the input's pitch. The result
      is the concatenation. */
  method Copy(inputs: seq<Tensor>, axis: int, res: Resolution, data: seq<seq<int>>, output: array<int>)
    requires Ready(inputs, axis, res, data)
    requires output.Length == Product(res.output.dims)
    modifies output
    ensures IsConcatenation(inputs, axis, res, data, output[..])
  {
    var a := res.axis;
    ghost var outer := Outer(inputs, res);
    ghost var ps := Pitches(inputs, a);
    Layout(inputs, axis, res, data);
    PitchesSumToAxisPitch(inputs, axis, res);
    var axisPitch := AxisPitch(res.output.dims, a);
    var outputBase := 0;
    for k := 0 to |inputs|
      invariant outputBase == Base(ps, k)
      invariant forall p | 0 <= p < output.Length && OriginOf(ps, outer, p).input < k ::
        output[p] == data[OriginOf(ps, outer, p).input][OriginOf(ps, outer, p).offset]
    {
      var inputAxisPitch := AxisPitch(inputs[k].dims, a);
      CopyInput(ps, outer, k, outputBase, axisPitch, inputAxisPitch, data[k], output);
      outputBase := outputBase + inputAxisPitch;
      assert ps[..k + 1][..k] == ps[..k];
    }
  }

  /** The inner loop for input `k`: the cursor `outputOffset` starts at the
      input's base and, after every `inputAxisPitch` elements, jumps over the
      other inputs' blocks. Afterwards every output position whose origin lies
      in input `k` holds that element; no other position changes. */
  method CopyInput(ghost ps: seq<int>, ghost outer: int, k: nat, outputBase: int, axisPitch: int,
                   inputAxisPitch: int, src: seq<int>, output: array<int>)
    requires WellFormed(ps) && outer >= 0 && k < |ps|
    requires outputBase == Base(ps, k) && axisPitch == Sum(ps) && inputAxisPitch == ps[k]
    requires |src| == outer * ps[k] && output.Length == outer * Sum(ps)
    modifies output
    ensures forall p | 0 <= p < output.Length ::
      output[p] == if OriginOf(ps, outer, p).input == k then src[OriginOf(ps, outer, p).offset] else old(output[p])
  {
    forall p | 0 <= p < output.Length
      ensures Destination(ps, OriginOf(ps, outer, p).input, OriginOf(ps, outer, p).offset) == p
    {
      OriginDestination(ps, outer, p);
    }
    var outputOffset := outputBase;
    var j := 0;
    for i := 0 to |src|
      invariant inputAxisPitch > 0 ==>
        && outputOffset == outputBase + (i / inputAxisPitch) * (axisPitch - inputAxisPitch)
        && j == i % inputAxisPitch
      invariant forall p | 0 <= p < output.Length ::
        output[p] == if Done(OriginOf(ps, outer, p), k, i) && OriginOf(ps, outer, p).input == k
                     then src[OriginOf(ps, outer, p).offset] else old(output[p])
    {
      assert inputAxisPitch > 0;
      Cursor(outputBase, axisPitch, inputAxisPitch, i);
      DestinationOrigin(ps, outer, k, i);
      output[outputOffset + i] := src[i];
      j := j + 1;
      if j == inputAxisPitch {
        outputOffset := outputOffset + (axisPitch - inputAxisPitch);
        j := 0;
      }
    }
  }

  /** The element has been copied once input `k` is done up to element `i`. */
  predicate Done(o: Origin, k: nat, i: int)
  {
    o.input < k || (o.input == k && o.offset < i)
  }

  /** The cursor arithmetic of the inner copy loop: the cursor plus `i` is
      the destination of element `i`, and after element `i` the cursor jumps
      exactly when a block of `pk` elements is complete. */
  lemma Cursor(base: int, total: int, pk: int, i: int)
    requires pk > 0 && i >= 0
    ensures base + (i / pk) * (total - pk) + i == base + (i / pk) * total + i % pk
    ensures i % pk + 1 == pk ==>
      && (i + 1) % pk == 0
      && base + ((i + 1) / pk) * (total - pk) == base + (i / pk) * (total - pk) + (total - pk)
    ensures i % pk + 1 != pk ==> (i + 1) / pk == i / pk && (i + 1) % pk == i % pk + 1
  {
    var slice := i / pk;
    assert slice * (total - pk) == slice * total - slice * pk;
    assert (slice + 1) * (total - pk) == slice * (total - pk) + (total - pk);
    NextDivMod(i, pk);
  }

  /** One more element: the offset within a block grows by one, or wraps to 0
      and the slice grows by one. */
  lemma NextDivMod(i: int, n: int)
    requires i >= 0 && n > 0
    ensures i % n + 1 == n ==> (i + 1) / n == i / n + 1 && (i + 1) % n == 0
    ensures i % n + 1 != n ==> (i + 1) / n == i / n && (i + 1) % n == i % n + 1
  {
    if i % n + 1 == n {
      DivModUnique(i + 1, n, i / n + 1, 0);
    } else {
      DivModUnique(i + 1, n, i / n, i % n + 1);
    }
  }
}
