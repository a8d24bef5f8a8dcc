/** The 8.4 pseudo-floating-point byte of the tiny sender (examples/tiny.c:24-41). */
module PseudoFloat {
  import opened Common
  import opened VarInt

  const MAX_VALUE: nat := 240 * 32768

  /** `x & MMASK`: bits 4..7. */
  function HighNibble(x: nat): nat { x / 16 % 16 * 16 }

  /** COAP_PSEUDOFP_DECODE_8_4. */
  function Decode(r: byte): nat
  {
    if r < 128 then r else HighNibble(r) * Pow2(r % 16)
  }

  lemma {:induction false} FlsAtLeast8(v: nat)
    requires v >= 128
    ensures Fls(v) >= 8
  {
    assert Pow2(7) == 128;
    if Fls(v) < 8 { Pow2Monotone(Fls(v), 7); }
  }

  /** `coap_fls(v) - Nn`: how far the leading eight bits of `v` are shifted. */
  function Shift(v: nat): nat
    requires v >= 128
  {
    FlsAtLeast8(v);
    Fls(v) - 8
  }

  /** COAP_PSEUDOFP_ENCODE_8_4_DOWN; the result is an unsigned char. */
  function Down(v: nat): byte
  {
    if v < 128 then v else (DownMantissa(v, Pow2(Shift(v))) + Shift(v)) % 256
  }

  function DownMantissa(v: nat, b: nat): nat
    requires b > 0
  {
    HighNibble(v / b)
  }

  /** COAP_PSEUDOFP_ENCODE_8_4_UP. */
  function Up(v: nat): nat
  {
    if v < 128 then v
    else
      var ls := Shift(v);
      var s := UpMantissa(v, Pow2(ls));
      if s == 0 then 128 + ls + 1 else s + ls
  }

  function UpMantissa(v: nat, b: nat): nat
    requires b > 0
  {
    HighNibble((v + 16 * b - 1) / b)
  }

  // ----- the leading bits -----

  lemma {:induction false} ShiftedPow2(ls: nat)
    ensures Pow2(ls + 7) == 128 * Pow2(ls) && Pow2(ls + 8) == 256 * Pow2(ls)
  {
    Pow2Add(7, ls);
    Pow2Add(8, ls);
    assert Pow2(7) == 128;
    assert Pow2(8) == 2 * Pow2(7);
  }

  lemma {:induction false} Shift15()
    ensures Pow2(15) == 32768 && Pow2(16) == 65536
  {
    ShiftedPow2(8);
    assert Pow2(8) == 256 by { ShiftedPow2(0); assert Pow2(0) == 1; }
  }

  /** The leading bit of `v` is bit `ls + 7`. */
  lemma {:induction false} Leading(v: nat) returns (ls: nat, b: nat)
    requires v >= 128
    ensures ls == Shift(v) && b == Pow2(ls) && 128 * b <= v < 256 * b
    ensures v <= MAX_VALUE ==> ls <= 15
    ensures v <= MAX_VALUE && ls == 15 ==> v <= 240 * b
  {
    FlsAtLeast8(v);
    ls := Shift(v);
    b := Pow2(ls);
    ShiftedPow2(ls);
    Shift15();
    if ls > 15 {
      Pow2Monotone(16, ls);
    }
  }

  /** A byte with mantissa `16 * k` and exponent `e`. */
  lemma {:induction false} DecodeParts(k: nat, e: nat)
    requires 8 <= k <= 15 && e <= 15
    ensures Decode(16 * k + e) == 16 * k * Pow2(e)
  {
    var r := 16 * k + e;
    assert r / 16 == k && r % 16 == e;
  }

  lemma {:induction false} PartsOfByte(r: byte) returns (k: nat, e: nat)
    requires r >= 128
    ensures 8 <= k <= 15 && e <= 15 && r == 16 * k + e && Decode(r) == 16 * k * Pow2(e)
  {
    k, e := r / 16, r % 16;
  }

  lemma {:induction false} CarryDecode(ls: nat)
    requires ls <= 14
    ensures Decode(128 + ls + 1) == 256 * Pow2(ls)
  {
    DecodeParts(8, ls + 1);
    assert Pow2(ls + 1) == 2 * Pow2(ls);
    assert 16 * 8 + (ls + 1) == 128 + ls + 1;
  }

  lemma {:induction false} Apart(n: nat, p: nat, b: nat)
    requires 128 <= n <= 240 && b > 0
    ensures 2 * p <= b ==> n * p < 128 * b
    ensures p >= 2 * b ==> n * p >= 256 * b
  {
    MulMonotone(n, 240, p);
    MulMonotone(128, n, p);
  }

  /** Seen at exponent `ls`, a representable value is small, large or a mantissa `n` times the scale. */
  lemma {:induction false} ByteAt(r: byte, ls: nat) returns (n: nat)
    ensures Decode(r) < 128 * Pow2(ls) || Decode(r) >= 256 * Pow2(ls) || (n % 16 == 0 && Decode(r) == n * Pow2(ls))
  {
    n := 0;
    if r < 128 {
      assert Decode(r) < 128 <= 128 * Pow2(ls);
    } else {
      var k, e := PartsOfByte(r);
      n := 16 * k;
      var w := Decode(r);
      assert w == n * Pow2(e);
      ModUnique(n, k, 0, 16);
      AtExponent(n, e, ls);
    }
  }

  lemma {:induction false} AtExponent(n: nat, e: nat, ls: nat)
    requires 128 <= n <= 240
    ensures n * Pow2(e) < 128 * Pow2(ls) || n * Pow2(e) >= 256 * Pow2(ls) || e == ls
  {
    Apart(n, Pow2(e), Pow2(ls));
    if e < ls {
      Pow2Monotone(e + 1, ls);
    } else if e > ls {
      Pow2Monotone(ls + 1, e);
    }
  }

  // ----- rounding down -----

  lemma {:induction false} Quotient(v: nat, b: nat)
    requires 0 < b && 128 * b <= v < 256 * b
    ensures 128 <= v / b <= 255 && v / b * b <= v < v / b * b + b
  {
    var q := v / b;
    assert q * b <= v < q * b + b;
    if q < 128 { MulMonotone(q + 1, 128, b); }
    if q > 255 { MulMonotone(256, q, b); }
  }

  lemma {:induction false} FloorArith(v: nat, b: nat, q8: nat)
    requires q8 * b <= v < q8 * b + b
    ensures (q8 / 16 * 16) * b <= v < (q8 / 16 * 16) * b + 16 * b
  {
    var m := q8 / 16 * 16;
    MulMonotone(m, q8, b);
    MulMonotone(q8 + 1, m + 16, b);
    assert (q8 + 1) * b == q8 * b + b;
    assert (m + 16) * b == m * b + 16 * b;
  }

  lemma {:induction false} DownArith(v: nat, b: nat) returns (m: nat)
    requires 0 < b && 128 * b <= v < 256 * b
    ensures m == DownMantissa(v, b) && 128 <= m <= 240 && m % 16 == 0
    ensures m * b <= v < m * b + 16 * b
  {
    Quotient(v, b);
    FloorArith(v, b, v / b);
    m := v / b / 16 * 16;
  }

  /** The mantissa that is kept is `m`. */
  lemma {:induction false} DownValue(v: nat) returns (ls: nat, b: nat, m: nat)
    requires 128 <= v <= MAX_VALUE
    ensures ls == Shift(v) <= 15 && b == Pow2(ls) && 128 <= m <= 240 && m % 16 == 0
    ensures Down(v) == m + ls && Decode(Down(v)) == m * b
    ensures m * b <= v < m * b + 16 * b && 128 * b <= v < 256 * b
  {
    ls, b := Leading(v);
    m := DownArith(v, b);
    DownByte(v, m);
    Sixteens(m, ls);
  }

  lemma {:induction false} DownByte(v: nat, m: nat)
    requires v >= 128 && DownMantissa(v, Pow2(Shift(v))) == m && m + Shift(v) < 256
    ensures Down(v) == m + Shift(v)
  {
  }

  lemma {:induction false} Sixteens(m: nat, e: nat)
    requires 128 <= m <= 240 && m % 16 == 0 && e <= 15
    ensures m + e < 256 && Decode(m + e) == m * Pow2(e)
  {
    var k := m / 16;
    assert m == 16 * k;
    DecodeParts(k, e);
  }

  /** Down gives the greatest representable value that is not above `v`. */
  lemma {:induction false} DownIsGreatest(v: nat, r: byte)
    requires v <= MAX_VALUE
    ensures Decode(Down(v)) <= v
    ensures Decode(r) <= v ==> Decode(r) <= Decode(Down(v))
  {
    if v >= 128 {
      var ls, b, m := DownValue(v);
      var n := ByteAt(r, ls);
      GreatestArith(v, b, m, n, Decode(r));
    }
  }

  lemma {:induction false} GreatestArith(v: nat, b: nat, m: nat, n: nat, w: nat)
    requires 128 <= m && m % 16 == 0 && m * b <= v < m * b + 16 * b && v < 256 * b
    requires w < 128 * b || w >= 256 * b || (n % 16 == 0 && w == n * b)
    ensures w <= v ==> w <= m * b
  {
    MulMonotone(128, m, b);
    if w <= v && w == n * b && n % 16 == 0 {
      Multiple(n, m, b, v);
    }
  }

  /** Among multiples of sixteen, `m` is the last that fits. */
  lemma {:induction false} Multiple(n: nat, m: nat, b: nat, v: nat)
    requires n % 16 == 0 && m % 16 == 0 && n * b <= v < m * b + 16 * b
    ensures n * b <= m * b
  {
    assert (m + 16) * b == m * b + 16 * b;
    if n > m {
      MulMonotone(m + 16, n, b);
    } else {
      MulMonotone(n, m, b);
    }
  }

  /** It loses less than an eighth. */
  lemma {:induction false} DownLosesLittle(v: nat)
    requires 128 <= v <= MAX_VALUE
    ensures 8 * (v - Decode(Down(v))) < v
  {
    var ls, b, m := DownValue(v);
  }

  // ----- rounding up -----

  lemma {:induction false} CeilArith(v: nat, b: nat, t: nat)
    requires v > 0 && b > 0 && t == (v + 16 * b - 1) / b
    ensures var m := t / 16 * 16; m * b < v + 16 * b && v <= m * b
  {
    var x, m := v + 16 * b - 1, t / 16 * 16;
    assert t * b <= x < t * b + b;
    MulMonotone(m, t, b);
    MulMonotone(t + 1, m + 16, b);
    assert (t + 1) * b == t * b + b;
    assert (m + 16) * b == m * b + 16 * b;
  }

  lemma {:induction false} CeilRange(v: nat, b: nat, m: nat)
    requires b > 0 && m % 16 == 0 && m * b < v + 16 * b && v <= m * b && 128 * b <= v < 256 * b
    ensures 128 <= m <= 256
    ensures v <= 240 * b ==> m <= 240
  {
    if m < 128 { MulMonotone(m, 112, b); }
    if m > 256 { MulMonotone(272, m, b); }
    if m == 256 { assert m * b == 256 * b; }
  }

  lemma {:induction false} UpArith(v: nat, b: nat) returns (m: nat)
    requires 0 < b && 128 * b <= v < 256 * b
    ensures 128 <= m <= 256 && m % 16 == 0 && UpMantissa(v, b) == (if m == 256 then 0 else m)
    ensures m * b < v + 16 * b && v <= m * b
    ensures v <= 240 * b ==> m <= 240
  {
    var t := (v + 16 * b - 1) / b;
    m := t / 16 * 16;
    assert m * b < v + 16 * b && v <= m * b by { CeilArith(v, b, t); }
    assert 128 <= m <= 256 && (v <= 240 * b ==> m <= 240) by { CeilRange(v, b, m); }
    assert UpMantissa(v, b) == HighNibble(t);
    NibbleOf(t);
  }

  lemma {:induction false} NibbleOf(t: nat)
    requires 128 <= t / 16 * 16 <= 256
    ensures HighNibble(t) == if t / 16 == 16 then 0 else t / 16 * 16
  {
  }

  /** The mantissa is rounded up to `m`; 256 carries into the exponent. */
  lemma {:induction false} UpValue(v: nat) returns (ls: nat, b: nat, m: nat)
    requires 128 <= v <= MAX_VALUE
    ensures ls == Shift(v) <= 15 && b == Pow2(ls) && 128 <= m <= 256 && m % 16 == 0
    ensures Up(v) < 256 && Decode(Up(v)) == m * b
    ensures m * b < v + 16 * b && v <= m * b && 128 * b <= v < 256 * b
  {
    ls, b := Leading(v);
    m := UpArith(v, b);
    if m == 256 {
      CarryDecode(ls);
    } else {
      Sixteens(m, ls);
    }
  }

  /** Up gives the least representable value that is not below `v`. */
  lemma {:induction false} UpIsLeast(v: nat, r: byte)
    requires v <= MAX_VALUE
    ensures Up(v) < 256 && Decode(Up(v)) >= v
    ensures Decode(r) >= v ==> Decode(r) >= Decode(Up(v))
  {
    if v >= 128 {
      var ls, b, m := UpValue(v);
      var n := ByteAt(r, ls);
      LeastArith(v, b, m, n, Decode(r));
    }
  }

  lemma {:induction false} LeastArith(v: nat, b: nat, m: nat, n: nat, w: nat)
    requires m <= 256 && m % 16 == 0 && m * b < v + 16 * b && 128 * b <= v
    requires w < 128 * b || w >= 256 * b || (n % 16 == 0 && w == n * b)
    ensures w >= v ==> w >= m * b
  {
    MulMonotone(m, 256, b);
    if w >= v && w == n * b && n % 16 == 0 {
      Multiple(m, n, b, m * b);
    }
  }

  // ----- decoding is undone -----

  lemma {:induction false} ExactMantissa(k: nat, p: nat)
    requires p > 0 && 8 <= k <= 15
    ensures DownMantissa(16 * k * p, p) == 16 * k == UpMantissa(16 * k * p, p)
  {
    var m := 16 * k;
    ModUnique(m * p, m, 0, p);
    assert m * p + 16 * p - 1 == (m + 15) * p + (p - 1);
    ModUnique(m * p + 16 * p - 1, m + 15, p - 1, p);
  }

  lemma {:induction false} ShiftOfDecoded(k: nat, e: nat)
    requires 8 <= k <= 15
    ensures 16 * k * Pow2(e) >= 128 && Shift(16 * k * Pow2(e)) == e
  {
    var p := Pow2(e);
    ShiftedPow2(e);
    MulMonotone(128, 16 * k, p);
    MulMonotone(16 * k, 240, p);
    FlsUnique(16 * k * p, e + 8);
  }

  /** Every byte survives: rounding a decoded value, either way, gives the byte back. */
  lemma {:induction false} EncodeInvertsDecode(r: byte)
    ensures Down(Decode(r)) == r && Up(Decode(r)) == r
  {
    if r >= 128 {
      var k, e := PartsOfByte(r);
      ShiftOfDecoded(k, e);
      ExactMantissa(k, Pow2(e));
      DownByte(Decode(r), 16 * k);
    }
  }
}
