/** Values shared by every part of the block-wise transfer model. */
module Common {

  type byte = b: int | 0 <= b < 256

  datatype Option<+T> = None | Some(value: T)

  const WORD: nat := 0x1_0000_0000 // unsigned int is 32 bits wide

  function Min(a: int, b: int): int { if a < b then a else b }

  function Pow2(n: nat): (r: nat)
    ensures r >= 1
  {
    if n == 0 then 1 else 2 * Pow2(n - 1)
  }

  lemma {:induction false} Pow2Add(a: nat, b: nat)
    ensures Pow2(a + b) == Pow2(a) * Pow2(b)
  {
    if a != 0 {
      Pow2Add(a - 1, b);
    }
  }

  lemma {:induction false} Pow2Monotone(a: nat, b: nat)
    requires a <= b
    ensures Pow2(a) <= Pow2(b)
  {
    if a < b {
      Pow2Monotone(a, b - 1);
    }
  }

  /** The block size `1 << (szx + 4)` that an SZX stands for (section 2.2 of RFC 7959). */
  function Chunk(szx: nat): (c: nat)
    ensures c >= 16
  {
    assert Pow2(4) == 16;
    Pow2Monotone(4, szx + 4);
    Pow2(szx + 4)
  }

  /** A larger block size is a whole multiple of every smaller one. */
  lemma {:induction false} ChunkScale(small: nat, large: nat)
    requires small <= large
    ensures Chunk(large) == Pow2(large - small) * Chunk(small)
    ensures Chunk(small) <= Chunk(large)
    ensures small < large ==> 2 * Chunk(small) <= Chunk(large)
  {
    Pow2Add(large - small, small + 4);
    Pow2Monotone(small + 4, large + 4);
    if small < large {
      Pow2Monotone(small + 4, large + 3);
    }
  }

  /** The part of `data` that starts at byte `off` and is at most `c` bytes long. */
  function Window(data: seq<byte>, off: nat, c: nat): (w: seq<byte>)
    ensures |w| <= c
  {
    data[Min(off, |data|)..Min(off + c, |data|)]
  }

  /** How many blocks of `c` bytes a body of `len` bytes needs. */
  function BlockCount(len: nat, c: nat): nat
    requires c > 0
  {
    (len + c - 1) / c
  }

  lemma {:induction false} BlockCountBounds(len: nat, c: nat)
    requires c > 0
    ensures BlockCount(len, c) * c >= len
    ensures BlockCount(len, c) * c < len + c
  {
  }

  /** Block `k` starts inside the body exactly when it is counted. */
  lemma {:induction false} BlockInside(len: nat, c: nat, k: nat)
    requires c > 0
    ensures k < BlockCount(len, c) <==> k * c < len
  {
    BlockCountBounds(len, c);
    var n := BlockCount(len, c);
    if k < n {
      MulMonotone(k, n - 1, c);
    } else {
      MulMonotone(n, k, c);
    }
  }

  lemma {:induction false} MulMonotone(a: nat, b: nat, c: nat)
    requires a <= b
    ensures a * c <= b * c
    ensures a < b ==> a * c + c <= b * c
  {
    var d := b - a;
    assert b * c == a * c + d * c;
    if a < b {
      assert d * c == (d - 1) * c + c;
    }
  }

  lemma {:induction false} SameProduct(a: nat, b: nat, c: nat)
    requires c > 0 && a * c == b * c
    ensures a == b
  {
    if a < b { MulMonotone(a, b, c); }
    if b < a { MulMonotone(b, a, c); }
  }

  /** Byte `i` belongs to block `k` exactly when `i / c` is `k`. */
  lemma {:induction false} ByteInBlock(i: nat, c: nat, k: nat)
    requires c > 0
    ensures i / c == k <==> k * c <= i < k * c + c
  {
    var q := i / c;
    assert q * c <= i < q * c + c;
    if q < k {
      MulMonotone(q, k, c);
    } else if k < q {
      MulMonotone(k, q, c);
    }
  }
}
