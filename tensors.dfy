/** The data model every operator lowering shares: element types, resolved
    tensors, the fatal build errors that abort a node, and the integer
    arithmetic the shape rules and the emitted loop nests are written with. */
module Tensors {

  /** Element types of ONNX's TensorProto.DataType enumeration. */
  datatype DType =
    | Float | UInt8 | Int8 | UInt16 | Int16 | Int32 | Int64 | String | Bool
    | Float16 | Double | UInt32 | UInt64 | BFloat16

  /** A resolved tensor: its extents, outermost first, and its element type.
      Extents are `int`, as the generator keeps them in a `std::vector<int>`;
      `WellFormed` says they are non-negative. */
  datatype Tensor = Tensor(dims: seq<int>, dtype: DType)

  /** Every extent is non-negative, as for any tensor that holds data. */
  predicate WellFormed(dims: seq<int>)
  {
    forall j | 0 <= j < |dims| :: dims[j] >= 0
  }

  /** Why a node gives up. Each `ERROR(...)` site of the lowerings maps to one
      of these; a few stand for conditions the source does not check but under
      which it would read outside a vector (see the README). */
  datatype Fault =
    | BadAttribute(name: string)      // an attribute whose type is not the one expected
    | UnknownAttribute(name: string)  // an attribute a strict parser does not know
    | AxisOutOfRange                  // Concat axis outside the rank after normalisation
    | RankMismatch(input: nat)        // Concat input of another rank than input 0
    | ShapeMismatch(input: nat)       // Concat input differing off the concatenation axis
    | TypeConstraint(input: nat)      // MatMul operand of a non-numeric element type
    | TwoVectors                      // MatMul with both operands vectors
    | InnerMismatch                   // MatMul inner dimensions differ
    | UnsupportedRank                 // a rank the lowering has no loop nest for
    | UnsupportedBatch                // a batch extent other than 1
    | ThresholdMismatch               // MultiThreshold table rows differ from the input
    | UnsupportedLargest              // TopK with largest != 1
    | MissingAttribute                // an attribute vector left empty
    | ShortAttribute                  // Im2Col attribute vector shorter than what is read
    | UnsupportedPadding              // Im2Col with pads that are not all equal
    | UnsupportedDilation             // Im2Col with a dilation other than 1
    | ZeroStride                      // Im2Col stride of 0, a division by zero
    | NoAccumulatorRange              // QuantAvgPool accumulator bound not positive, log2 undefined

  datatype Option<+T> = None | Some(value: T)

  /** Success or the fault that aborts the build; failure-compatible, so `:-`
      stops at the first fault as the source's `ERROR` does. */
  datatype Result<+T> = Success(value: T) | Failure(error: Fault)
  {
    predicate IsFailure() { Failure? }

    function PropagateFailure<U>(): Result<U>
      requires Failure?
    {
      Failure(error)
    }

    function Extract(): T
      requires Success?
    {
      value
    }
  }

  /** Product of a list of extents: the element count of a tensor. */
  function Product(s: seq<int>): int
  {
    if |s| == 0 then 1 else s[0] * Product(s[1..])
  }

  /** Sum of a list, added from the front as a running total is. */
  function Sum(s: seq<int>): int
  {
    if |s| == 0 then 0 else Sum(s[..|s| - 1]) + s[|s| - 1]
  }

  /** C's `/` on signed integers: the quotient truncated toward zero
      (Dafny's own `/` rounds toward negative infinity for a positive divisor). */
  function TruncDiv(n: int, d: int): int
    requires d != 0
  {
    var q := (if n < 0 then -n else n) / (if d < 0 then -d else d);
    if (n < 0) == (d < 0) then q else -q
  }

  const Uint32Modulus: int := 0x1_0000_0000

  /** The value a `uint32_t` holds after an assignment of `x`. */
  function Wrap32(x: int): int
  {
    x % Uint32Modulus
  }

  lemma {:induction false} ProductSplit(s: seq<int>, k: nat)
    requires k <= |s|
    ensures Product(s) == Product(s[..k]) * Product(s[k..])
  {
    if k > 0 {
      ProductSplit(s[1..], k - 1);
      assert s[1..][..k - 1] == s[..k][1..];
      assert s[1..][k - 1..] == s[k..];
    } else {
      assert s[k..] == s;
    }
  }

  lemma {:induction false} ProductNonNegative(s: seq<int>)
    requires WellFormed(s)
    ensures Product(s) >= 0
  {
    if |s| > 0 {
      ProductNonNegative(s[1..]);
    }
  }

  /** The product of a list is the product without its last extent times that extent. */
  lemma ProductLast(s: seq<int>)
    requires |s| > 0
    ensures Product(s) == Product(s[..|s| - 1]) * s[|s| - 1]
  {
    ProductSplit(s, |s| - 1);
    assert s[|s| - 1..] == [s[|s| - 1]];
  }

  /** Dividing `q * n + r` by `n` gives back `q` and `r` when `0 <= r < n`. */
  lemma DivModUnique(a: int, n: int, q: int, r: int)
    requires n > 0 && 0 <= r < n && a == q * n + r
    ensures a / n == q && a % n == r
  {
    var q', r' := a / n, a % n;
    assert (q - q') * n == r' - r;
    MulSign(q - q', n);
  }

  lemma MulSign(k: int, n: int)
    requires n > 0
    ensures k >= 1 ==> k * n >= n
    ensures k <= -1 ==> k * n <= -n
  {
    if k >= 1 {
      MulAtLeastOnce(k, n);
    } else if k <= -1 {
      MulAtLeastOnce(-k, n);
      assert (-k) * n == -(k * n);
    }
  }

  lemma MulAtLeastOnce(k: int, n: int)
    requires k >= 1 && n >= 0
    ensures k * n >= n
  {
    assert k * n == (k - 1) * n + n;
    MulNonNegative(k - 1, n);
  }

  lemma MulNonNegative(a: int, b: int)
    requires a >= 0 && b >= 0
    ensures a * b >= 0
  {
  }

  /** Multiplying by a positive factor keeps the order. */
  lemma MulMonotone(x: int, y: int, s: int)
    requires s > 0
    ensures x <= y ==> x * s <= y * s
  {
    if x <= y {
      MulNonNegative(y - x, s);
      assert y * s - x * s == (y - x) * s;
    }
  }

  /** `x * n + i` stays below `m * n` when `x < m` and `i < n`. */
  lemma MulAddBelow(x: int, i: int, m: int, n: int)
    requires 0 <= x < m && 0 <= i < n
    ensures 0 <= x * n + i < m * n
  {
    MulNonNegative(x, n);
    assert m * n == (m - 1) * n + n;
    assert (m - 1) * n >= x * n by {
      assert (m - 1) * n - x * n == (m - 1 - x) * n;
      MulNonNegative(m - 1 - x, n);
    }
  }

  /** Row-major flattening of `(r, c)` in an `m x n` grid: the flat index
      `r * n + c` lies in `[0, m * n)` and divides back into `r` and `c`. */
  lemma Flatten2(r: int, c: int, m: int, n: int)
    requires 0 <= r < m && 0 <= c < n
    ensures 0 <= r * n + c < m * n
    ensures (r * n + c) / n == r && (r * n + c) % n == c
  {
    MulAddBelow(r, c, m, n);
    DivModUnique(r * n + c, n, r, c);
  }

  /** A position below `m * n` splits into a row below `m` and a column below `n`. */
  lemma DivBelow(p: int, m: int, n: int)
    requires n > 0 && 0 <= p < m * n
    ensures 0 <= p / n < m && 0 <= p % n < n
    ensures p == (p / n) * n + p % n
  {
  }
}
