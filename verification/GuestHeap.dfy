/** Guest values and the heap of shared, possibly cyclic containers they live in. */
module GuestHeap {

  const MAX_MARSHAL_DEPTH: nat := 512
  const MAX_ARRAY_LEN: nat := 262_144
  const MAX_OBJECT_PROPS: nat := 262_144
  const MAX_STRING_LEN: nat := 64 * 1024 * 1024

  type Loc = nat

  // A number is its bit pattern, so that copying one is exact. `Opaque` stands
  // for the values without a wire form (functions, promises, generators).
  datatype Value =
    | Undefined | Null | Bool(b: bool) | Number(bits: int) | String(text: string)
    | Array(at: Loc) | Object(at: Loc)
    | Error(name: string, message: string)
    | Opaque

  datatype Property = Property(key: string, value: Value, enumerable: bool)

  datatype Cell = Items(items: seq<Value>) | Props(props: seq<Property>)

  type Heap = map<Loc, Cell>

  // A container value points at a cell of its own kind.
  predicate Typed(h: Heap, v: Value) {
    && (v.Array? ==> v.at in h && h[v.at].Items?)
    && (v.Object? ==> v.at in h && h[v.at].Props?)
  }

  predicate TypedCell(h: Heap, c: Cell) {
    match c
    case Items(items) => forall i | 0 <= i < |items| :: Typed(h, items[i])
    case Props(props) => forall i | 0 <= i < |props| :: Typed(h, props[i].value)
  }

  ghost predicate Closed(h: Heap) {
    forall l | l in h :: TypedCell(h, h[l])
  }

  predicate Container(v: Value) {
    v.Array? || v.Object?
  }
}
