/** The Block1/Block2 option value and the functions that write and cut blocks (src/block.c:15-136). */
module BlockOption {
  import opened Common
  import opened VarInt

  /** coap_block_t: block number, More bit and SZX. */
  datatype Block = Block(num: nat, m: bool, szx: nat)

  const MAX_NUM: nat := 0xFFFFF
  const MAX_BLK_LEN: nat := 0xFFFFF * 1024 // the longest body a transfer takes (src/block.c:348-355)

  /** Bitwise or. */
  function Or(a: nat, b: nat): nat
  {
    if a == 0 then b
    else if b == 0 then a
    else 2 * Or(a / 2, b / 2) + (if a % 2 == 1 || b % 2 == 1 then 1 else 0)
  }

  /** The 32-bit integer `(num << 4) | (m << 3) | szx`. */
  function Packed(b: Block): nat
  {
    Or(Or(b.num * 16 % WORD, if b.m then 8 else 0), b.szx)
  }

  lemma {:induction false} OrDouble(a: nat, b: nat)
    ensures Or(2 * a, b) == 2 * Or(a, b / 2) + b % 2
  {
  }

  lemma {:induction false} HalveThrice(b: nat)
    ensures b / 2 / 2 / 2 == b / 8
    ensures b % 8 == b % 2 + 2 * (b / 2 % 2) + 4 * (b / 2 / 2 % 2)
  {
  }

  lemma {:induction false} OrByEight(a: nat, b: nat)
    ensures Or(8 * a, b) == 8 * Or(a, b / 8) + b % 8
  {
    var b2 := b / 2;
    var b4 := b2 / 2;
    HalveThrice(b);
    assert Or(8 * a, b) == 2 * Or(4 * a, b2) + b % 2 by { OrDouble(4 * a, b); }
    assert Or(4 * a, b2) == 2 * Or(2 * a, b4) + b2 % 2 by { OrDouble(2 * a, b2); }
    OrDouble(a, b4);
  }

  lemma {:induction false} ShiftedWord(num: nat)
    ensures num * 16 % WORD == num % 0x1000_0000 * 16
  {
  }

  /** An SZX of three bits does not touch the other fields, so packing adds. */
  lemma {:induction false} PackedIsSum(b: Block)
    requires b.szx < 8
    ensures Packed(b) == b.num % 0x1000_0000 * 16 + (if b.m then 8 else 0) + b.szx
  {
    var q, bit := b.num % 0x1000_0000, if b.m then 1 else 0;
    assert b.num * 16 % WORD == q * 16 by { ShiftedWord(b.num); }
    var high := 2 * q + bit;
    assert Or(8 * (2 * q), 8 * bit) == 8 * high by {
      OrByEight(2 * q, 8 * bit);
      OrDouble(q, bit);
    }
    OrByEight(high, b.szx);
  }

  lemma {:induction false} OversizePacked(szx: nat)
    ensures Packed(Block(0, true, szx)) == szx / 16 * 16 + 8 + szx % 8
  {
    OrByEight(1, szx);
    OrDouble(0, szx / 8);
    assert szx / 8 / 2 == szx / 16;
  }

  lemma {:induction false} PackedFields(b: Block)
    requires b.num < 0x1000_0000 && b.szx < 8
    ensures var v := Packed(b); v < WORD && v / 16 == b.num && (v % 16 >= 8 <==> b.m) && v % 8 == b.szx
  {
    PackedIsSum(b);
    SplitNibble(b.num, b.m, b.szx);
    assert b.num % 0x1000_0000 == b.num;
  }

  /** Larger values of SZX run into the More bit and the number. */
  lemma {:induction false} OversizeIsMisread(szx: nat)
    requires 8 <= szx < 256
    ensures Read(Some(Block(0, true, szx))) == Some(Block(szx / 16, true, szx % 8))
  {
    var num, low := szx / 16, szx % 8;
    var v := num * 16 + 8 + low;
    assert Packed(Block(0, true, szx)) == v by { OversizePacked(szx); }
    SplitNibble(num, true, low);
    ReadValue(v);
  }

  /** The bytes coap_encode_var_safe writes for a block option. */
  function Encode(b: Block): seq<byte> { ToBytes(Packed(b)) }

  /** coap_opt_block_num. */
  function OptBlockNum(opt: seq<byte>): nat
  {
    if opt == [] then 0
    else
      var high := FromBytes(opt[..|opt| - 1]) % WORD;
      (high * 16) % WORD + opt[|opt| - 1] / 16
  }

  /** coap_get_block: `None` when the option is absent or its number needs more than 20 bits. */
  function GetBlock(opt: Option<seq<byte>>): Option<Block>
  {
    if opt.None? then None
    else
      var v := opt.value;
      var last := if v == [] then 0 else v[|v| - 1];
      var num := OptBlockNum(v);
      if num > MAX_NUM then None else Some(Block(num, last % 16 >= 8, last % 8))
  }

  /** The last byte holds the low nibble and the bytes before it the rest of the number. */
  lemma {:induction false} OptBlockNumOfBytes(v: nat)
    requires v < WORD
    ensures OptBlockNum(ToBytes(v)) == v / 16
    ensures v != 0 ==> ToBytes(v) != [] && ToBytes(v)[|ToBytes(v)| - 1] == v % 256
  {
    if v != 0 {
      var bs, front := ToBytes(v), v / 256;
      assert bs[..|bs| - 1] == ToBytes(front);
      RoundTrip(front);
      assert front * 16 + v % 256 / 16 == v / 16;
    }
  }

  lemma {:induction false} SplitByte(v: nat)
    ensures v % 256 % 16 == v % 16 && v % 256 % 8 == v % 8
  {
  }

  lemma {:induction false} SplitNibble(num: nat, m: bool, szx: nat)
    requires szx < 8
    ensures var v := num * 16 + (if m then 8 else 0) + szx;
            v / 16 == num && (v % 16 >= 8 <==> m) && v % 8 == szx
  {
    var bit := if m then 1 else 0;
    var v := num * 16 + bit * 8 + szx;
    ModUnique(v, num, bit * 8 + szx, 16);
    ModUnique(v, num * 2 + bit, szx, 8);
  }

  lemma {:induction false} ReadValue(v: nat)
    requires v < WORD
    ensures GetBlock(Some(ToBytes(v))) ==
            if v / 16 > MAX_NUM then None else Some(Block(v / 16, v % 16 >= 8, v % 8))
  {
    OptBlockNumOfBytes(v);
    SplitByte(v);
    var bs := ToBytes(v);
    var last := if bs == [] then 0 else bs[|bs| - 1];
    assert last == v % 256;
  }

  /** Writing a block option and reading it back gives the same triple exactly when the number has
      20 bits; a larger number (up to the 28 bits the shift keeps) makes the option unreadable. */
  lemma {:induction false} OptionRoundTrip(b: Block)
    requires b.num < 0x1000_0000 && b.szx < 8
    ensures GetBlock(Some(Encode(b))) == if b.num <= MAX_NUM then Some(b) else None
  {
    PackedFields(b);
    ReadValue(Packed(b));
  }

  /** An option of up to four bytes is readable exactly when its value has 24 bits, and what is read
      packs to that value again: reading loses nothing but leading zero bytes. */
  lemma {:induction false} ReadableOption(opt: seq<byte>)
    requires |opt| <= 4
    ensures GetBlock(Some(opt)).Some? <==> FromBytes(opt) < 0x100_0000
    ensures GetBlock(Some(opt)).Some? ==>
              var b := GetBlock(Some(opt)).value;
              b.szx < 8 && b.num <= MAX_NUM && Packed(b) == FromBytes(opt)
  {
    if opt != [] {
      var front := FromBytes(opt[..|opt| - 1]);
      var last := opt[|opt| - 1];
      assert front < 0x100_0000 by {
        DecodedBound(opt[..|opt| - 1]);
        Pow2Monotone(8 * (|opt| - 1), 24);
        Pow2Of24();
      }
      assert FromBytes(opt) == front * 256 + last;
      assert OptBlockNum(opt) == front * 16 + last / 16 by { ShiftFits(front); }
      JoinNibbles(front, last);
      if GetBlock(Some(opt)).Some? {
        PackedIsSum(GetBlock(Some(opt)).value);
      }
    }
  }

  lemma {:induction false} ShiftFits(front: nat)
    requires front < 0x100_0000
    ensures front % WORD == front && front * 16 % WORD == front * 16
  {
  }

  lemma {:induction false} JoinNibbles(front: nat, last: byte)
    ensures front * 16 + last / 16 <= MAX_NUM <==> front * 256 + last < 0x100_0000
    ensures (front * 16 + last / 16) * 16 + (if last % 16 >= 8 then 8 else 0) + last % 8 == front * 256 + last
  {
  }

  lemma {:induction false} Pow2Of24()
    ensures Pow2(24) == 0x100_0000
  {
    Pow2Add(12, 12);
    Pow2Add(6, 6);
    assert Pow2(6) == 64;
  }

  /** What the peer reads from a block option that was written, if one was. */
  function Read(b: Option<Block>): Option<Block>
  {
    if b.None? then None else GetBlock(Some(Encode(b.value)))
  }

  // ----- coap_add_block -----

  /** The payload coap_add_block appends, or nothing when the block starts past the end. */
  function AddBlock(data: seq<byte>, num: nat, szx: nat): Option<seq<byte>>
  {
    var start := num * Chunk(szx);
    if |data| <= start then None
    else Some(data[start..start + Min(|data| - start, Chunk(szx))])
  }

  lemma {:induction false} AddBlockIsWindow(data: seq<byte>, num: nat, szx: nat)
    ensures AddBlock(data, num, szx) ==
            if num * Chunk(szx) < |data| then Some(Window(data, num * Chunk(szx), Chunk(szx))) else None
  {
  }

  function Payloads(data: seq<byte>, szx: nat, n: nat): seq<byte>
  {
    if n == 0 then []
    else
      Payloads(data, szx, n - 1) +
      match AddBlock(data, n - 1, szx) { case Some(p) => p case None => [] }
  }

  lemma {:induction false} ExtendPrefix(data: seq<byte>, off: nat, c: nat)
    ensures data[..Min(off, |data|)] + Window(data, off, c) == data[..Min(off + c, |data|)]
  {
  }

  lemma {:induction false} MulSucc(k: nat, c: nat)
    ensures (k + 1) * c == k * c + c
  {
  }

  lemma {:induction false} PayloadsArePrefix(data: seq<byte>, szx: nat, n: nat)
    ensures Payloads(data, szx, n) == data[..Min(n * Chunk(szx), |data|)]
  {
    if n > 0 {
      PayloadsArePrefix(data, szx, n - 1);
      AddBlockIsWindow(data, n - 1, szx);
      ExtendPrefix(data, (n - 1) * Chunk(szx), Chunk(szx));
      MulSucc(n - 1, Chunk(szx));
    }
  }

  /** The blocks 0..ceil(len/size)-1 put together are the body, and there are no further blocks. */
  lemma {:induction false} Partition(data: seq<byte>, szx: nat)
    ensures Payloads(data, szx, BlockCount(|data|, Chunk(szx))) == data
    ensures forall k: nat :: AddBlock(data, k, szx).Some? <==> k < BlockCount(|data|, Chunk(szx))
  {
    var c := Chunk(szx);
    var n := BlockCount(|data|, c);
    PayloadsArePrefix(data, szx, n);
    BlockCountBounds(|data|, c);
    forall k: nat
      ensures AddBlock(data, k, szx).Some? <==> k < n
    {
      BlockInside(|data|, c, k);
    }
  }

  /** A More bit that tells whether bytes remain after block `k` is clear on the last block alone. */
  lemma {:induction false} MoreUntilLast(len: nat, szx: nat, k: nat)
    requires k < BlockCount(len, Chunk(szx))
    ensures k * Chunk(szx) + Chunk(szx) < len <==> k + 1 < BlockCount(len, Chunk(szx))
  {
    BlockInside(len, Chunk(szx), k + 1);
    MulSucc(k, Chunk(szx));
  }

  // ----- coap_flsll(avail) - 5: the largest size that fits -----

  lemma {:induction false} FlsAtLeast5(space: nat)
    requires space >= 16
    ensures Fls(space) >= 5
  {
    var f := Fls(space);
    assert Pow2(4) == 16;
    if f < 5 {
      Pow2Monotone(f, 4);
    }
  }

  lemma {:induction false} ChunkAs(szx: nat, n: nat)
    requires szx + 4 == n
    ensures Chunk(szx) == Pow2(n)
  {
  }

  method LargestSize(space: nat) returns (szx: nat)
    requires space >= 16
    ensures Chunk(szx) <= space < Chunk(szx + 1)
  {
    var fls := Flsll(space);
    szx := SizeOf(space, fls.value);
  }

  /** The size with the highest set bit of `space`. */
  method SizeOf(space: nat, fls: nat) returns (szx: nat)
    requires space >= 16 && fls == Fls(space)
    ensures Chunk(szx) <= space < Chunk(szx + 1)
  {
    FlsAtLeast5(space);
    szx := fls - 5;
    ChunkAs(szx, fls - 1);
    ChunkAs(szx + 1, fls);
  }

  lemma {:induction false} SmallerChunk(a: nat, b: nat)
    requires Chunk(a) < Chunk(b)
    ensures a < b
  {
    if b <= a { ChunkScale(b, a); }
  }

  // ----- coap_write_block_opt -----

  datatype WriteResult = IllegalBlock | NoSpace | Written(block: Block)

  /** The block that goes into the PDU for the one asked for. */
  function Settled(block: Block, space: nat, dataLength: nat): WriteResult
    requires block.num <= MAX_NUM && block.szx < 8
  {
    var start := block.num * Chunk(block.szx);
    if block.num != 0 && dataLength <= start then IllegalBlock else Fitted(block, start, space, dataLength)
  }

  function Fitted(block: Block, start: nat, space: nat, dataLength: nat): WriteResult
  {
    var want := Chunk(block.szx);
    if want <= space then Written(block.(m := want < dataLength - start))
    else if dataLength - start <= space then Written(block.(m := false))
    else if space < 16 then NoSpace
    else Written(Shrunk(block, FittingSize(space, block.szx)))
  }

  /** The largest size up to `szx` that fits. */
  function FittingSize(space: nat, szx: nat): (r: nat)
    ensures r <= szx
  {
    if szx == 0 || Chunk(szx) <= space then szx else FittingSize(space, szx - 1)
  }

  lemma {:induction false} FittingSizeUnique(space: nat, szx: nat, s: nat)
    requires s <= szx && Chunk(s) <= space < Chunk(s + 1)
    ensures FittingSize(space, szx) == s
  {
    if s < szx {
      ChunkScale(s + 1, szx);
      FittingSizeUnique(space, szx - 1, s);
    }
  }

  /** The block that starts at the same byte in the smaller size `szx`. */
  function Shrunk(block: Block, szx: nat): Block
  {
    Block(Shift(block.num, if szx < block.szx then block.szx - szx else 0), true, szx)
  }

  /** `num << d`. */
  function Shift(num: nat, d: nat): nat { if d == 0 then num else 2 * Shift(num, d - 1) }

  lemma {:induction false} ShiftIsMul(num: nat, d: nat)
    ensures Shift(num, d) == num * Pow2(d)
  {
    if d > 0 {
      ShiftIsMul(num, d - 1);
    }
  }

  /** `space` is what the source computes as `max_size - used_size - hdr_size`. */
  method WriteBlockOpt(block: Block, space: nat, dataLength: nat) returns (r: WriteResult, opt: seq<byte>)
    requires block.num <= MAX_NUM && block.szx < 8
    // refused exactly for a later block that starts past the end ...
    ensures r.IllegalBlock? <==> block.num != 0 && dataLength <= block.num * Chunk(block.szx)
    // ... or when the rest does not fit and neither does the smallest block
    ensures r.NoSpace? <==> !r.IllegalBlock? && space < 16 && space < dataLength - block.num * Chunk(block.szx)
    // the block written starts at the byte that was asked for and is never larger than asked
    ensures r.Written? ==> r.block.num * Chunk(r.block.szx) == block.num * Chunk(block.szx)
    ensures r.Written? ==> r.block.szx <= block.szx
    // the size changes exactly when neither a full block nor the rest of the data fits ...
    ensures r.Written? ==> var start := block.num * Chunk(block.szx);
              (r.block.szx < block.szx <==> space < Chunk(block.szx) && space < dataLength - start)
    // ... and then to the largest power of two that does
    ensures r.Written? && r.block.szx < block.szx ==>
              Chunk(r.block.szx) <= space < Chunk(r.block.szx + 1)
    // the payload fits the space, and M says whether bytes remain after it
    ensures r.Written? ==> var start := block.num * Chunk(block.szx);
              Min(Chunk(r.block.szx), dataLength - start) <= space
    ensures r.Written? ==> var start := block.num * Chunk(block.szx);
              r.block.m <==> start + Chunk(r.block.szx) < dataLength
    // what was inserted into the PDU is the encoding of the returned block
    ensures r.Written? ==> opt == Encode(r.block) && r.block.num < 0x1000_0000
    ensures r == Settled(block, space, dataLength)
  {
    opt := [];
    var start := block.num * Chunk(block.szx);
    if block.num != 0 && dataLength <= start {
      return IllegalBlock, opt;
    }
    r := Fit(block, start, space, dataLength);
    if r.Written? {
      opt := Encode(r.block);
      assert r.block.num * Chunk(r.block.szx) == start && r.block.num < 0x1000_0000 by {
        StartIsKept(block, r.block);
      }
    }
  }

  /** The size, number and More bit for the room there is; `start` is the block's offset. */
  method Fit(block: Block, start: nat, space: nat, dataLength: nat) returns (r: WriteResult)
    requires block.num <= MAX_NUM && block.szx < 8
    ensures r == Fitted(block, start, space, dataLength) && !r.IllegalBlock?
    ensures r.NoSpace? <==> space < 16 && space < dataLength - start
    ensures r.Written? ==> r.block.szx <= block.szx && Renumbered(block, r.block)
    ensures r.Written? ==> (r.block.szx < block.szx <==> space < Chunk(block.szx) && space < dataLength - start)
    ensures r.Written? && r.block.szx < block.szx ==> Chunk(r.block.szx) <= space < Chunk(r.block.szx + 1)
    ensures r.Written? ==> Min(Chunk(r.block.szx), dataLength - start) <= space
    ensures r.Written? ==> (r.block.m <==> start + Chunk(r.block.szx) < dataLength)
  {
    var want := Chunk(block.szx);
    if want <= space {
      return Written(block.(m := want < dataLength - start));
    } else if dataLength - start <= space {
      return Written(block.(m := false));
    }
    if space < 16 {
      return NoSpace;
    }
    var out := Shrink(block, space);
    return Written(out);
  }

  /** `out` is `block` in its own size or in a smaller one, with either More bit. */
  predicate Renumbered(block: Block, out: Block)
  {
    if out.szx < block.szx then out == Shrunk(block, out.szx) else out == block.(m := out.m)
  }

  lemma {:induction false} StartIsKept(block: Block, out: Block)
    requires block.num <= MAX_NUM && block.szx < 8 && Renumbered(block, out)
    ensures out.num * Chunk(out.szx) == block.num * Chunk(block.szx) && out.num < 0x1000_0000
  {
    if out.szx < block.szx {
      ShrunkBlock(block, out.szx);
    }
  }

  /** The block renumbered for the largest size that fits. */
  method Shrink(block: Block, space: nat) returns (out: Block)
    requires block.num <= MAX_NUM && block.szx < 8 && 16 <= space < Chunk(block.szx)
    ensures out.szx < block.szx && out == Shrunk(block, FittingSize(space, block.szx))
    ensures Chunk(out.szx) <= space < Chunk(out.szx + 1)
  {
    var szx := LargestSize(space);
    SmallerChunk(szx, block.szx);
    FittingSizeUnique(space, block.szx, szx);
    out := Block(Shift(block.num, block.szx - szx), true, szx);
  }

  lemma {:induction false} MulAssoc(a: nat, b: nat, c: nat)
    ensures a * b * c == a * (b * c)
  {
  }

  /** The renumbered block starts at the same byte and its number still fits the shift. */
  lemma {:induction false} ShrunkBlock(block: Block, szx: nat)
    requires block.num <= MAX_NUM && szx < block.szx < 8
    ensures Shift(block.num, block.szx - szx) < 0x1000_0000
    ensures Shift(block.num, block.szx - szx) * Chunk(szx) == block.num * Chunk(block.szx)
  {
    ChunkScale(szx, block.szx);
    ShiftIsMul(block.num, block.szx - szx);
    MulAssoc(block.num, Pow2(block.szx - szx), Chunk(szx));
    NumStaysSmall(block.num, block.szx - szx);
  }

  lemma {:induction false} NumStaysSmall(num: nat, d: nat)
    requires num <= MAX_NUM && d < 8
    ensures num * Pow2(d) < 0x1000_0000
  {
    Pow2Monotone(d, 7);
    assert Pow2(7) == 128;
    assert num * Pow2(d) <= num * 128;
  }

  /** Numbers of blocks inside such a body, and the next one, are far from the 28 bits the shift keeps. */
  lemma {:induction false} SmallNumber(k: nat, c: nat)
    requires c >= 16 && k * c < MAX_BLK_LEN
    ensures k + 1 < 0x1000_0000
  {
    assert k * c == k * 16 + k * (c - 16);
  }
}
