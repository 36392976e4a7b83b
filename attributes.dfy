/** A node's attribute list, already decoded from its ONNX AttributeProto
    records, and the typed accessors every parser uses. */
module Attributes {
  import opened Tensors

  /** The payload an attribute's declared type selects. */
  datatype Value =
    | Int(i: int)
    | Real(f: real)
    | Text(s: string)
    | Ints(xs: seq<int>)
    | Reals(fs: seq<real>)

  datatype Attribute = Attribute(name: string, value: Value)

  /** `a.i()`: the integer payload, which protobuf reads as 0 when the
      attribute does not hold an integer. */
  function IntField(a: Attribute): int
  {
    if a.value.Int? then a.value.i else 0
  }

  /** The last attribute called `name`, if any: the one whose value a parsing
      loop that overwrites its field at every match leaves in force. */
  function Last(attrs: seq<Attribute>, name: string): Option<Value>
  {
    if |attrs| == 0 then None
    else if attrs[|attrs| - 1].name == name then Some(attrs[|attrs| - 1].value)
    else Last(attrs[..|attrs| - 1], name)
  }

  /** The integer a field ends up with: the last `name` attribute's, else `default`. */
  function LastInt(attrs: seq<Attribute>, name: string, default: int): int
  {
    match Last(attrs, name)
    case Some(Int(i)) => i
    case _ => default
  }

  /** The string a field ends up with: the last `name` attribute's, else `default`. */
  function LastText(attrs: seq<Attribute>, name: string, default: string): string
  {
    match Last(attrs, name)
    case Some(Text(s)) => s
    case _ => default
  }

  /** The integer list a field ends up with: the last `name` attribute's, else `default`. */
  function LastInts(attrs: seq<Attribute>, name: string, default: seq<int>): seq<int>
  {
    match Last(attrs, name)
    case Some(Ints(xs)) => xs
    case _ => default
  }

  /** The real a field ends up with, or `None` if no `name` attribute sets it. */
  function LastReal(attrs: seq<Attribute>, name: string): Option<real>
  {
    match Last(attrs, name)
    case Some(Real(f)) => Some(f)
    case _ => None
  }

  /** The integer a field ends up with, or `None` if no `name` attribute sets it. */
  function LastIntOpt(attrs: seq<Attribute>, name: string): Option<int>
  {
    match Last(attrs, name)
    case Some(Int(i)) => Some(i)
    case _ => None
  }

  /** Position `k` is the first attribute of `attrs` that `ok` refuses. */
  predicate FirstRefused(attrs: seq<Attribute>, ok: Attribute -> bool, k: int)
  {
    0 <= k < |attrs| && !ok(attrs[k]) && forall m | 0 <= m < k :: ok(attrs[m])
  }

  /** Adding one attribute at the end: `Last` sees it first. */
  lemma LastSnoc(attrs: seq<Attribute>, a: Attribute, name: string)
    ensures Last(attrs + [a], name) == if a.name == name then Some(a.value) else Last(attrs, name)
  {
    assert (attrs + [a])[..|attrs|] == attrs;
  }
}
