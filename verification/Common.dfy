/** What several parts share. */
module Common {

  datatype Option<+T> = None | Some(value: T)

  const MIN_INT64: int := -0x8000_0000_0000_0000
  const MAX_INT64: int := 0x7FFF_FFFF_FFFF_FFFF

  newtype byte = x: int | 0 <= x < 256

  type Bytes = seq<byte>

  /** One of the orders in which the members of a set, such as the keys of a map, can be visited. */
  ghost predicate Orders<T(!new)>(order: seq<T>, members: set<T>) {
    && (forall x :: x in order <==> x in members)
    && forall i, j :: 0 <= i < j < |order| ==> order[i] != order[j]
  }
}
