module Bytes {
  newtype byte = x: int | 0 <= x < 256

  function Pow256(n: nat): (p: nat)
    ensures p > 0
  {
    if n == 0 then 1 else 256 * Pow256(n - 1)
  }

  /** The `n` low bytes of `v`, least significant first. */
  function Le(n: nat, v: nat): (b: seq<byte>)
    ensures |b| == n
  {
    if n == 0 then [] else [(v % 256) as byte] + Le(n - 1, v / 256)
  }

  function FromLe(b: seq<byte>): nat {
    if b == [] then 0 else b[0] as nat + 256 * FromLe(b[1..])
  }

  lemma {:induction false} FromLeOfLe(n: nat, v: nat)
    requires v < Pow256(n)
    ensures FromLe(Le(n, v)) == v
  {
    if n > 0 {
      assert v / 256 < Pow256(n - 1);
      FromLeOfLe(n - 1, v / 256);
      assert Le(n, v)[1..] == Le(n - 1, v / 256);
    }
  }

  lemma {:induction false} LeOfFromLe(b: seq<byte>)
    ensures FromLe(b) < Pow256(|b|) && Le(|b|, FromLe(b)) == b
  {
    if b != [] {
      LeOfFromLe(b[1..]);
      var r := FromLe(b[1..]);
      assert FromLe(b) % 256 == b[0] as nat && FromLe(b) / 256 == r;
    }
  }
}
