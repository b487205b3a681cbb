/** Bytes, options and the few memory primitives the agent uses. */
module Bytes {

  type byte = x: int | 0 <= x < 0x100

  type u16 = x: int | 0 <= x < 0x1_0000

  type Mac = s: seq<byte> | |s| == 6 witness [0, 0, 0, 0, 0, 0]

  type Ipv4 = s: seq<byte> | |s| == 4 witness [0, 0, 0, 0]

  /** Four bytes that are not an address. */
  type Word32 = s: seq<byte> | |s| == 4 witness [0, 0, 0, 0]

  datatype Option<+T> = None | Some(value: T)
  {
    function GetOr(default: T): T {
      match this
      case None => default
      case Some(v) => v
    }
  }

  function Zeros(n: nat): seq<byte> {
    seq<byte>(n, _ => 0)
  }

  function Max(a: int, b: int): int {
    if a < b then b else a
  }

  /** Copies `src` into `dst` at offset `at`; every other cell keeps its value. */
  method Memcpy(dst: array<byte>, at: nat, src: seq<byte>)
    requires at + |src| <= dst.Length
    modifies dst
    ensures dst[..] == old(dst[..at]) + src + old(dst[at + |src|..])
  {
    for i := 0 to |src|
      invariant dst[..] == old(dst[..at]) + src[..i] + old(dst[at + i..])
    {
      dst[at + i] := src[i];
    }
  }

  /** Clears the first `n` cells. */
  method MemsetZero(dst: array<byte>, n: nat)
    requires n <= dst.Length
    modifies dst
    ensures dst[..] == Zeros(n) + old(dst[n..])
  {
    for i := 0 to n
      invariant forall k :: 0 <= k < i ==> dst[k] == 0
      invariant forall k :: i <= k < dst.Length ==> dst[k] == old(dst[k])
    {
      dst[i] := 0;
    }
  }
}
