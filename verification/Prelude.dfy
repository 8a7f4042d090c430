/** Small shared vocabulary: optional values and the machine integers of the Go source. */
module Prelude {

  datatype Option<+T> = None | Some(value: T)

  const TWO_31: int := 0x8000_0000
  const TWO_32: int := 0x1_0000_0000
  const TWO_63: int := 0x8000_0000_0000_0000
  const TWO_64: int := 0x1_0000_0000_0000_0000

  /** Unix time stamps and database ids are 64-bit in the source. */
  type Int64 = x: int | -TWO_63 <= x < TWO_63

  /** Two's complement truncation to 32 bits: Go's `int32(x)`. */
  function ToInt32(x: int): (r: int)
    ensures -TWO_31 <= r < TWO_31
    ensures (r - x) % TWO_32 == 0
  {
    (x + TWO_31) % TWO_32 - TWO_31
  }

  /** Two's complement truncation to 64 bits: the result of Go's int arithmetic. */
  function Wrap64(x: int): (r: Int64)
    ensures (r - x) % TWO_64 == 0
  {
    (x + TWO_63) % TWO_64 - TWO_63
  }

  /** 64-bit subtraction with wrap-around: Go's `a - b` on int64 values. */
  function Sub64(a: Int64, b: Int64): (r: Int64)
    ensures (r - (a - b)) % TWO_64 == 0
  {
    Wrap64(a - b)
  }

  /** The wrapped difference is the true one exactly when the true one fits into 64 bits. */
  lemma Sub64Exact(a: Int64, b: Int64)
    ensures Sub64(a, b) == a - b <==> -TWO_63 <= a - b < TWO_63
  {
  }

  lemma ToInt32Exact(x: int)
    ensures ToInt32(x) == x <==> -TWO_31 <= x < TWO_31
  {
  }

  /** The next key of a range over a map: any one that is left. */
  method Pick<T(==)>(todo: set<T>) returns (x: T)
    requires todo != {}
    ensures x in todo
  {
    x :| x in todo;
  }

  function Elements<T>(s: seq<T>): set<T> {
    set x | x in s
  }

  /** The keys in the order a range over a map visits them: any order, each key once. */
  method Order<T(==)>(keys: set<T>) returns (order: seq<T>)
    ensures Elements(order) == keys
    ensures forall i, k :: 0 <= i < k < |order| ==> order[i] != order[k]
  {
    order := [];
    var todo := keys;
    while todo != {}
      invariant todo <= keys && Elements(order) == keys - todo
      invariant forall i, k :: 0 <= i < k < |order| ==> order[i] != order[k]
      decreases todo
    {
      var x := Pick(todo);
      assert forall i :: 0 <= i < |order| ==> order[i] in Elements(order);
      assert Elements(order + [x]) == Elements(order) + {x};
      order := order + [x];
      todo := todo - {x};
    }
  }
}
