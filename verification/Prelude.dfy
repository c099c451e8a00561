// Shared vocabulary: optional values, Python slices, and C integers on the wire.

module Prelude {
  datatype Option<+T> = None | Some(value: T) {
    predicate IsFailure() { None? }
    function PropagateFailure<U>(): Option<U>
      requires None?
    {
      None
    }
    function Extract(): T
      requires Some?
    {
      value
    }
  }

  datatype Result<+T, +E> = Ok(value: T) | Err(error: E) {
    predicate IsFailure() { Err? }
    function PropagateFailure<U>(): Result<U, E>
      requires Err?
    {
      Err(error)
    }
    function Extract(): T
      requires Ok?
    {
      value
    }
  }

  /** Python's `s[lo:hi]` for 0 <= lo <= hi: indices past the end are cut off. */
  function Slice<T>(s: seq<T>, lo: nat, hi: nat): seq<T>
    requires lo <= hi
  {
    if |s| <= lo then [] else if |s| < hi then s[lo..] else s[lo..hi]
  }

  function Flatten<T>(parts: seq<seq<T>>): seq<T> {
    if parts == [] then [] else parts[0] + Flatten(parts[1..])
  }
}

module Bytes {
  import opened Prelude

  type Byte = n: int | 0 <= n < 256
  type U16 = n: int | 0 <= n < 0x1_0000
  type U32 = n: int | 0 <= n < 0x1_0000_0000
  type I32 = n: int | -0x8000_0000 <= n < 0x8000_0000
  type I64 = n: int | -0x8000_0000_0000_0000 <= n < 0x8000_0000_0000_0000

  function Pow256(k: nat): (p: int)
    ensures p > 0
  {
    if k == 0 then 1 else 256 * Pow256(k - 1)
  }

  lemma Widths()
    ensures Pow256(2) == 0x1_0000
    ensures Pow256(4) == 0x1_0000_0000
    ensures Pow256(8) == 0x1_0000_0000_0000_0000
  {
    assert Pow256(1) == 256 && Pow256(3) == 256 * Pow256(2);
    assert Pow256(5) == 256 * Pow256(4) && Pow256(7) == 256 * Pow256(6);
  }

  /** `k` bytes of `n`, least significant first. */
  function Le(n: nat, k: nat): (s: seq<Byte>)
    ensures |s| == k
  {
    if k == 0 then [] else [n % 256] + Le(n / 256, k - 1)
  }

  function Unsigned(s: seq<Byte>): (n: nat)
    ensures n < Pow256(|s|)
  {
    if s == [] then 0 else s[0] + 256 * Unsigned(s[1..])
  }

  /** Two's complement, as the daemon's memcpy of a C integer leaves it. */
  function LeSigned(n: int, k: nat): (s: seq<Byte>)
    requires -Pow256(k) <= 2 * n < Pow256(k)
    ensures |s| == k
  {
    Le(if n < 0 then n + Pow256(k) else n, k)
  }

  function Signed(s: seq<Byte>): int {
    var n := Unsigned(s);
    if 2 * n < Pow256(|s|) then n else n - Pow256(|s|)
  }

  lemma {:induction false} UnsignedOfLe(n: nat, k: nat)
    requires n < Pow256(k)
    ensures Unsigned(Le(n, k)) == n
  {
    if k > 0 {
      UnsignedOfLe(n / 256, k - 1);
    }
  }

  lemma SignedOfLe(n: int, k: nat)
    requires -Pow256(k) <= 2 * n < Pow256(k)
    ensures Signed(LeSigned(n, k)) == n
  {
    UnsignedOfLe(if n < 0 then n + Pow256(k) else n, k);
  }

  // struct.unpack_from: None stands for struct.error on a short buffer.

  function UnsignedAt(buf: seq<Byte>, at: nat, k: nat): Option<int> {
    if at + k <= |buf| then Some(Unsigned(buf[at..at + k])) else None
  }

  function SignedAt(buf: seq<Byte>, at: nat, k: nat): Option<int> {
    if at + k <= |buf| then Some(Signed(buf[at..at + k])) else None
  }

  lemma UnsignedAtOfLe(before: seq<Byte>, n: nat, k: nat, after: seq<Byte>)
    requires n < Pow256(k)
    ensures UnsignedAt(before + Le(n, k) + after, |before|, k) == Some(n)
  {
    UnsignedOfLe(n, k);
    assert (before + Le(n, k) + after)[|before|..|before| + k] == Le(n, k);
  }

  lemma SignedAtOfLe(before: seq<Byte>, n: int, k: nat, after: seq<Byte>)
    requires -Pow256(k) <= 2 * n < Pow256(k)
    ensures SignedAt(before + LeSigned(n, k) + after, |before|, k) == Some(n)
  {
    SignedOfLe(n, k);
    assert (before + LeSigned(n, k) + after)[|before|..|before| + k] == LeSigned(n, k);
  }
}
