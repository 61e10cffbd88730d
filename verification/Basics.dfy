/** Types that several components share. */
module Basics {

  datatype Option<+T> = None | Some(value: T)

  /** Addresses are numbers; 0 is the null pointer. */
  type Ptr = nat

  newtype Byte = x: int | 0 <= x < 256

  const WORD32: nat := 0x1_0000_0000
  const WORD64: nat := 0x1_0000_0000_0000_0000
  const INT_MAX: int := 0x7fff_ffff
  const INT_MIN: int := -0x8000_0000

  /** Slots of the ordering ring for each outstanding request. */
  const MAX_DISORDER_GROUPS: nat := 16

  function Least(x: nat, y: nat): nat { if x < y then x else y }

  function Most(x: nat, y: nat): nat { if x < y then y else x }

  function Concat<T>(parts: seq<seq<T>>): seq<T> {
    if parts == [] then [] else Concat(parts[..|parts| - 1]) + parts[|parts| - 1]
  }

  lemma ConcatOne<T>(parts: seq<seq<T>>, last: seq<T>)
    ensures Concat(parts + [last]) == Concat(parts) + last
  {
    assert (parts + [last])[..|parts|] == parts;
  }
}
