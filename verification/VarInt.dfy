/** Variable-length unsigned integers (src/encode.c, section 3.2 of RFC 7252). */
module VarInt {
  import opened Common

  // ----- coap_flsll: position of the highest set bit -----

  function Fls(i: nat): (n: nat)
    ensures n == 0 <==> i == 0
    ensures i > 0 ==> Pow2(n - 1) <= i < Pow2(n)
  {
    if i == 0 then 0 else 1 + Fls(i / 2)
  }

  lemma {:induction false} FlsUnique(i: nat, n: nat)
    requires n > 0 && Pow2(n - 1) <= i < Pow2(n)
    ensures Fls(i) == n
  {
    var f := Fls(i);
    if f < n {
      Pow2Monotone(f, n - 1);
    } else if n < f {
      Pow2Monotone(n, f - 1);
    }
  }

  /** `i` shifted right `n` times; the shift of a negative number rounds down. */
  function Halved(i: int, n: nat): int
  {
    if n == 0 then i else Halved(i, n - 1) / 2
  }

  /** Halving reaches 0 exactly if the number is not negative; below 0 it ends at -1. */
  lemma {:induction false} HalvingReachesZero(i: int)
    ensures i >= 0 <==> exists n: nat :: Halved(i, n) == 0
  {
    if i >= 0 {
      HalvedIsRest(i, Fls(i));
    } else {
      forall n: nat
        ensures Halved(i, n) < 0
      {
        StaysNegative(i, n);
      }
    }
  }

  lemma {:induction false} StaysNegative(i: int, n: nat)
    requires i < 0
    ensures Halved(i, n) < 0
  {
    if n > 0 {
      StaysNegative(i, n - 1);
    }
  }

  /** Each halving takes one bit off. */
  lemma {:induction false} HalvedIsRest(i: nat, n: nat)
    requires n <= Fls(i)
    ensures Halved(i, n) >= 0 && Fls(Halved(i, n)) == Fls(i) - n
  {
    if n > 0 {
      HalvedIsRest(i, n - 1);
    }
  }

  /** The shift loop; `None` when it never ends, because shifting has come to -1 and leaves it as it is. */
  method Flsll(i: int) returns (n: Option<nat>)
    ensures n.None? <==> forall k: nat :: Halved(i, k) != 0
    ensures n.Some? ==> Halved(i, n.value) == 0 && forall k: nat :: k < n.value ==> Halved(i, k) != 0
    ensures n == if i >= 0 then Some(Fls(i)) else None
  {
    HalvingReachesZero(i);
    var rest, count := i, 0;
    while rest != 0
      invariant rest == Halved(i, count) && (rest >= 0 <==> i >= 0)
      invariant i >= 0 ==> count + Fls(rest) == Fls(i)
      invariant forall k: nat :: k < count ==> Halved(i, k) != 0
      decreases if rest >= 0 then rest else -rest
    {
      if rest / 2 == rest {
        return None;
      }
      rest, count := rest / 2, count + 1;
    }
    n := Some(count);
  }

  // ----- the encoding as a value -----

  /** The shortest big-endian byte string for a value; zero is the empty string. */
  function ToBytes(val: nat): seq<byte>
  {
    if val == 0 then [] else ToBytes(val / 256) + [val % 256]
  }

  function FromBytes(bs: seq<byte>): nat
  {
    if bs == [] then 0 else FromBytes(bs[..|bs| - 1]) * 256 + bs[|bs| - 1]
  }

  predicate NoLeadingZero(bs: seq<byte>) { bs != [] ==> bs[0] != 0 }

  /** Encoding then decoding is the identity. */
  lemma {:induction false} RoundTrip(val: nat)
    ensures FromBytes(ToBytes(val)) == val
  {
    if val != 0 {
      var bs := ToBytes(val);
      assert bs[..|bs| - 1] == ToBytes(val / 256);
      RoundTrip(val / 256);
    }
  }

  /** Decoding then encoding is the identity on every string without a leading zero byte. */
  lemma {:induction false} CanonicalRoundTrip(bs: seq<byte>)
    requires NoLeadingZero(bs)
    ensures ToBytes(FromBytes(bs)) == bs
    ensures bs != [] ==> FromBytes(bs) > 0
  {
    if bs != [] {
      var front := bs[..|bs| - 1];
      CanonicalRoundTrip(front);
      var v := FromBytes(bs);
      assert v / 256 == FromBytes(front) && v % 256 == bs[|bs| - 1];
      assert v > 0 by { if front == [] { assert bs[|bs| - 1] == bs[0]; } }
      assert front + [bs[|bs| - 1]] == bs;
    }
  }

  lemma {:induction false} EncodedHasNoLeadingZero(val: nat)
    ensures NoLeadingZero(ToBytes(val))
  {
    if val != 0 {
      EncodedHasNoLeadingZero(val / 256);
    }
  }

  /** `k` bytes are enough exactly for the values below 2^(8k). */
  lemma {:induction false} LengthBound(val: nat, k: nat)
    ensures |ToBytes(val)| <= k <==> val < Pow2(8 * k)
  {
    if k == 0 {
    } else {
      Pow2Add(8, 8 * (k - 1));
      assert Pow2(8) == 256 by { Pow2Add(4, 4); assert Pow2(4) == 16; }
      if val != 0 {
        LengthBound(val / 256, k - 1);
      }
    }
  }

  lemma {:induction false} DecodedBound(bs: seq<byte>)
    ensures FromBytes(bs) < Pow2(8 * |bs|)
  {
    if bs != [] {
      DecodedBound(bs[..|bs| - 1]);
      Pow2Add(8, 8 * (|bs| - 1));
      assert Pow2(8) == 256 by { Pow2Add(4, 4); assert Pow2(4) == 16; }
    }
  }

  /** No byte string that decodes to `FromBytes(bs)` is shorter than the one the encoder writes. */
  lemma {:induction false} EncodingIsMinimal(bs: seq<byte>)
    ensures |ToBytes(FromBytes(bs))| <= |bs|
  {
    DecodedBound(bs);
    LengthBound(FromBytes(bs), |bs|);
  }

  // ----- the C functions; `width` is 4 for the 32-bit pair and 8 for the 64-bit pair -----

  /** coap_encode_var_safe and coap_encode_var_safe8: bytes are written from the end. */
  method EncodeVar(buf: array<byte>, length: nat, val: nat, width: nat) returns (n: nat)
    requires length <= buf.Length
    requires val < Pow2(8 * width)
    modifies buf
    ensures |ToBytes(val)| <= width
    ensures |ToBytes(val)| > length ==> n == 0 && buf[..] == old(buf[..])
    ensures |ToBytes(val)| <= length ==>
              n == |ToBytes(val)| && buf[..n] == ToBytes(val) && buf[n..] == old(buf[n..])
  {
    LengthBound(val, width);
    n := 0;
    var i := val;
    while i != 0 && n < width
      invariant n + |ToBytes(i)| == |ToBytes(val)|
    {
      i := i / 256;
      n := n + 1;
    }
    if n > length {
      return 0;
    }
    var k, rest := n, val;
    while k > 0
      invariant 0 <= k <= n
      invariant ToBytes(rest) + buf[k..n] == ToBytes(val)
      invariant |ToBytes(rest)| == k
      invariant forall j :: n <= j < buf.Length ==> buf[j] == old(buf[j])
    {
      k := k - 1;
      ghost var done := buf[k + 1..n];
      buf[k] := rest % 256;
      assert buf[k..n] == [rest % 256] + done;
      rest := rest / 256;
    }
    assert buf[..n] == buf[0..n];
  }

  /** coap_decode_var_bytes and coap_decode_var_bytes8: the accumulator keeps `8 * width` bits. */
  method DecodeVar(buf: array<byte>, len: nat, width: nat) returns (n: nat)
    requires len <= buf.Length
    ensures n == FromBytes(buf[..len]) % Pow2(8 * width)
  {
    n := 0;
    assert FromBytes(buf[..0]) == 0;
    for i := 0 to len
      invariant n == FromBytes(buf[..i]) % Pow2(8 * width)
    {
      assert buf[..i + 1][..i] == buf[..i];
      WrapStep(FromBytes(buf[..i]), Pow2(8 * width), buf[i]);
      n := (n * 256 + buf[i]) % Pow2(8 * width);
    }
  }

  lemma {:induction false} WrapStep(a: nat, m: nat, b: nat)
    requires m > 0
    ensures ((a % m) * 256 + b) % m == (a * 256 + b) % m
  {
    var q := a / m;
    assert a == m * q + a % m;
    assert a * 256 + b == (m * q) * 256 + ((a % m) * 256 + b);
    assert (m * q) * 256 == (q * 256) * m;
    ModShift((a % m) * 256 + b, q * 256, m);
  }

  lemma {:induction false} ModShift(x: nat, k: nat, m: nat)
    requires m > 0
    ensures (k * m + x) % m == x % m
  {
    var r, q := x % m, x / m;
    assert x == q * m + r;
    assert k * m + x == (k + q) * m + r;
    ModUnique(k * m + x, k + q, r, m);
  }

  lemma {:induction false} ModUnique(x: nat, q: nat, r: nat, m: nat)
    requires 0 <= r < m && x == q * m + r
    ensures x % m == r && x / m == q
  {
    ByteInBlock(x, m, q);
  }
}
