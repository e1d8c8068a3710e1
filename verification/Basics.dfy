/** Result types and fixed-width integers shared by every component. */
module Basics {
  type u8 = x: nat | x <= 0xFF
  type u16 = x: nat | x <= 0xFFFF
  type u32 = x: nat | x <= 0xFFFF_FFFF
  type u64 = x: nat | x <= 0xFFFF_FFFF_FFFF_FFFF

  type Bytes = seq<u8>

  datatype Option<+T> = None | Some(value: T)
  datatype Result<+T, +E> = Ok(value: T) | Err(error: E)

  ghost predicate NoRepeats<T>(s: seq<T>)
  {
    forall i, j :: 0 <= i < j < |s| ==> s[i] != s[j]
  }

  lemma SubsetCard<T>(a: set<T>, b: set<T>)
    requires a <= b
    ensures |a| <= |b|
  {
    assert b == a + (b - a);
  }

  /** Order and grouping do not matter in sums of multisets. */
  lemma Reorder<T>(a: multiset<T>, b: multiset<T>, c: multiset<T>)
    ensures a + (b + c) == b + (a + c) == (b + a) + c
  {
  }
}
