/** Values shared by every module of the model: optional values, results
  * that may carry an error, wire bytes and 32-bit integers. */
module Basics {

  datatype Option<T> = None | Some(value: T)

  /** The outcome of an operation that either yields a value or raises an error. */
  datatype Result<T, E> = Success(value: T) | Failure(error: E)

  /** The outcome of an operation that yields nothing but may raise an error. */
  datatype Status<E> = Done | Raised(error: E)

  /** An unsigned byte as it travels on the wire. */
  type byte = x: int | 0 <= x < 256

  const MinInt32: int := -0x8000_0000
  const MaxInt32: int := 0x7fff_ffff
  const TwoTo32: int := 0x1_0000_0000

  predicate IsInt32(v: int) { MinInt32 <= v <= MaxInt32 }

  /** A 32-bit two's-complement integer (C++ `Int`, Java `int`, C# `int`). */
  type int32 = v: int | MinInt32 <= v <= MaxInt32

  /** Wrap an unbounded integer into the 32-bit two's-complement range,
    * the way a Java or C++ `int` overflows. */
  function Wrap32(v: int): (r: int32)
    ensures r % TwoTo32 == v % TwoTo32
    ensures IsInt32(v) ==> r == v
  {
    var u := v % TwoTo32;
    if u > MaxInt32 then u - TwoTo32 else u
  }

  /** Some element of a non-empty set. */
  method Pick<T>(s: set<T>) returns (x: T)
    requires s != {}
    ensures x in s
  {
    x :| x in s;
  }
}
