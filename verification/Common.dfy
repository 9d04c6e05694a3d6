/** Values shared by every component: optional values, results, and Go's 64-bit wrap-around. */
module Common {
  datatype Option<+T> = None | Some(value: T)
  {
    function GetOr(other: T): T {
      if Some? then value else other
    }
  }

  datatype Result<+T, +E> = Ok(value: T) | Err(error: E)

  const MIN_INT64: int := -0x8000_0000_0000_0000
  const MAX_INT64: int := 0x7FFF_FFFF_FFFF_FFFF
  const TWO_64: int := 0x1_0000_0000_0000_0000

  predicate IsInt64(v: int) {
    MIN_INT64 <= v <= MAX_INT64
  }

  type int64 = v: int | IsInt64(v)

  /** The int64 that Go's arithmetic keeps of the exact result v. */
  function Wrap64(v: int): (r: int64)
    ensures IsInt64(v) ==> r == v
  {
    (v - MIN_INT64) % TWO_64 + MIN_INT64
  }

  lemma {:induction false} SubsetSize<T>(a: set<T>, b: set<T>)
    requires a <= b
    ensures |a| <= |b|
  {
    assert b == a + (b - a);
  }

  lemma UnfoldFirst<T>(s: seq<T>)
    requires s != []
    ensures s == [s[0]] + s[1..]
  {
  }

  lemma Associate<T>(a: seq<T>, b: seq<T>, c: seq<T>)
    ensures a + b + c == a + (b + c)
  {
  }

  predicate NoDuplicates<T(==)>(s: seq<T>) {
    forall i, j | 0 <= i < j < |s| :: s[i] != s[j]
  }
}
