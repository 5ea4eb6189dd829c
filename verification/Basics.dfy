/** Definitions shared by several modules. */
module Basics {

  type Mid = n: nat | 1 <= n <= 65535 witness 1
  type Qos = q: nat | 1 <= q <= 2 witness 1

  datatype Option<+T> = None | Some(value: T)

  /** Bytes are numbers below 256; the masks and shifts of C are quotients and remainders. */
  type Byte = b: nat | b < 256
  type Bytes = seq<Byte>

  function Min(a: int, b: int): int { if a < b then a else b }

  /** The sequence without the element at position j. */
  function Without<T>(s: seq<T>, j: nat): seq<T>
    requires j < |s|
  {
    s[..j] + s[j + 1..]
  }

  /** 0, 1, ..., n - 1. */
  function Upto(n: nat): seq<nat> { seq(n, i => i) }

  lemma {:induction false} UptoOnce(k: nat, n: nat)
    ensures multiset(Upto(k))[n] == if n < k then 1 else 0
  {
    if k > 0 {
      UptoOnce(k - 1, n);
      assert Upto(k) == Upto(k - 1) + [k - 1];
    }
  }
}
