/** Numbers as bytes, lowest first (the `extract_*` functions of include/gs++/util.hpp). */
module Bytes {
  import opened Transactions

  type Data = seq<Byte>

  /** The number of values of `k` bytes. */
  function Pow256(k: nat): (p: nat)
    ensures p > 0
  {
    if k == 0 then 1 else 256 * Pow256(k - 1)
  }

  function FromLE(b: Data): nat {
    if |b| == 0 then 0 else b[0] + 256 * FromLE(b[1..])
  }

  function ToLE(n: nat, k: nat): (b: Data)
    ensures |b| == k
  {
    if k == 0 then [] else [n % 256] + ToLE(n / 256, k - 1)
  }

  lemma {:induction false} FromToLE(n: nat, k: nat)
    requires n < Pow256(k)
    ensures FromLE(ToLE(n, k)) == n
    decreases k
  {
    if k > 0 {
      FromToLE(n / 256, k - 1);
    }
  }

  lemma {:induction false} ToFromLE(b: Data)
    ensures FromLE(b) < Pow256(|b|) && ToLE(FromLE(b), |b|) == b
    decreases |b|
  {
    if |b| > 0 {
      ToFromLE(b[1..]);
    }
  }

  lemma Widths()
    ensures Pow256(1) == 0x100 && Pow256(2) == 0x10000 && Pow256(4) == 0x100000000 && Pow256(8) == 0x10000000000000000
  {
    assert Pow256(3) == 0x1000000;
    assert Pow256(5) == 0x10000000000;
    assert Pow256(6) == 0x1000000000000;
    assert Pow256(7) == 0x100000000000000;
  }

  /** A byte behind the others counts 256 times as much as all of them could. */
  lemma {:induction false} PlaceLE(b: Data, x: Byte)
    ensures FromLE([]) == 0 && FromLE(b + [x]) == FromLE(b) + x * Pow256(|b|)
    decreases |b|
  {
    if |b| == 0 {
      assert b + [x] == [x] && [x][1..] == [];
    } else {
      PlaceLE(b[1..], x);
      assert (b + [x])[1..] == b[1..] + [x];
    }
  }

  function Reverse(b: Data): (r: Data)
    ensures |r| == |b|
  {
    if |b| == 0 then [] else Reverse(b[1..]) + [b[0]]
  }

  lemma {:induction false} ReverseAppend(b: Data, x: Byte)
    ensures Reverse(b + [x]) == [x] + Reverse(b)
    decreases |b|
  {
    if |b| > 0 {
      assert (b + [x])[1..] == b[1..] + [x];
      ReverseAppend(b[1..], x);
    }
  }

  lemma {:induction false} ReverseTwice(b: Data)
    ensures Reverse(Reverse(b)) == b
    decreases |b|
  {
    if |b| > 0 {
      ReverseTwice(b[1..]);
      ReverseAppend(Reverse(b[1..]), b[0]);
    }
  }

  /** Numbers with the highest byte first, read as the source does: reversed, then lowest first. */
  function FromBE(b: Data): nat {
    FromLE(Reverse(b))
  }

  function ToBE(n: nat, k: nat): (b: Data)
    ensures |b| == k
  {
    Reverse(ToLE(n, k))
  }

  /** A byte behind the others counts once, and all of them 256 times. */
  lemma PlaceBE(b: Data, x: Byte)
    ensures FromBE([]) == 0 && FromBE(b + [x]) == 256 * FromBE(b) + x
  {
    ReverseAppend(b, x);
    assert ([x] + Reverse(b))[1..] == Reverse(b);
  }

  lemma FromToBE(n: nat, k: nat)
    requires n < Pow256(k)
    ensures FromBE(ToBE(n, k)) == n
  {
    ReverseTwice(ToLE(n, k));
    FromToLE(n, k);
  }

  lemma ToFromBE(b: Data)
    ensures FromBE(b) < Pow256(|b|) && ToBE(FromBE(b), |b|) == b
  {
    ToFromLE(Reverse(b));
    ReverseTwice(b);
  }
}
