/** Go's fixed-width integers: the ranges of `int64`, `uint64` and `uint32`,
    two's-complement wrap-around, and division that truncates toward zero; and any
    element of a set, for the iteration order of maps. */
module GoInts {
  const TWO32 := 0x1_0000_0000
  const TWO63 := 0x8000_0000_0000_0000
  const TWO64 := 0x1_0000_0000_0000_0000

  type byte = x: int | 0 <= x < 256
  type uint32 = x: int | 0 <= x < TWO32
  type uint64 = x: int | 0 <= x < TWO64
  type int64 = x: int | -TWO63 <= x < TWO63
  type bytes = seq<byte>

  datatype Option<+T> = None | Some(value: T)

  /** The int64 that Go's `+` and `-` leave behind for the exact result `x`. */
  function Wrap(x: int): (r: int64)
    ensures -TWO63 <= x < TWO63 ==> r == x
  {
    (x + TWO63) % TWO64 - TWO63
  }

  /** int64 `x - y` and `x + y`. */
  function Minus(x: int, y: int): (r: int64)
  {
    Wrap(x - y)
  }

  function Plus(x: int, y: int): (r: int64)
  {
    Wrap(x + y)
  }

  /** `uint64(x)`. */
  function ToU64(x: int64): (r: uint64)
  {
    if x < 0 then x + TWO64 else x
  }

  /** `int64(u)`. */
  function ToI64(u: uint64): (r: int64)
    ensures ToU64(r) == u
  {
    if u < TWO63 then u else u - TWO64
  }

  /** A wrapped difference added back with wrap-around gives the original number:
      what every delta encoding in the cache relies on. */
  lemma DeltaCancels(last: int64, x: int64)
    ensures Wrap(last + Wrap(x - last)) == x
    ensures Plus(Minus(x, last), last) == x
  {
  }

  /** Go's integer `/`. */
  function TruncDiv(a: int, b: int): (r: int)
    requires b > 0
    ensures a >= 0 ==> 0 <= a - b * r < b
    ensures a <= 0 ==> 0 <= b * r - a < b
  {
    if a >= 0 then a / b else -((-a) / b)
  }

  lemma Element<T>(t: set<T>) returns (k: T)
    requires t != {}
    ensures k in t
  {
    k :| k in t;
  }

  lemma KeyOf<K, V>(m: map<K, V>, v: V) returns (k: K)
    requires v in m.Values
    ensures k in m && m[k] == v
  {
    k :| k in m && m[k] == v;
  }

  /** One step of iterating over a Go map: any element that is left. */
  method AnyOf<T(==)>(s: set<T>) returns (x: T)
    requires s != {}
    ensures x in s
  {
    x :| x in s;
  }

  lemma Assoc<T>(a: seq<T>, b: seq<T>, c: seq<T>)
    ensures a + b + c == a + (b + c)
  {
  }
}
