/** A client sending a large body with Block1: coap_add_data_large_internal for requests and
    coap_handle_response_send_block (src/block.c:318-610 and 1432-1539). */
module Block1Sender {
  import opened Common
  import opened VarInt
  import opened BlockOption

  /** A request that carries one block; the option travels as the bytes of `block`. */
  datatype Put = Put(block: Block, size1: nat, payload: seq<byte>)

  /** A response: code class and Block1 option. */
  datatype Resp = Resp(cls: nat, block: Option<Block>)

  /** coap_lg_xmit_t for a request, or its absence once it has been freed. `offset` is the first byte
      of the block in flight and `last` the last acknowledged block. */
  datatype Sender = Sending(szx: nat, last: int, offset: nat) | Finished

  // ----- the first block -----

  datatype Start =
    | NeverReturns                                   // the size of negative room is looked for without end
    | Failed
    | Whole(payload: seq<byte>, block: Option<Block>) // fits one PDU, no transfer is set up
    | OneBlock(payload: seq<byte>)                   // the application picked a later block itself
    | Started(sender: Sender, put: Put)

  /** How a transfer of `d` begins: block 0 with M set and the length as Size1, in a size that leaves
      more to send and fits the PDU. */
  predicate Begins(d: seq<byte>, sender: Sender, put: Put, space: int)
  {
    var szx := put.block.szx;
    && sender == Sending(szx, -1, 0)
    && put == Put(Block(0, true, szx), |d|, Window(d, 0, Chunk(szx)))
    && Chunk(szx) < |d| && Chunk(szx) <= space
  }

  /** `space` and `spaceAfter` are `avail` before and after the options are added; `app` is the block
      option already in the PDU, if any. `released` counts the calls of the application's release callback. */
  method AddDataLarge(body: seq<byte>, space: int, app: Option<Block>, spaceAfter: int)
    returns (r: Start, szx: nat, released: nat)
    requires app.Some? ==> app.value.num <= MAX_NUM && app.value.szx < 8
    // `szx` is the size picked at first: the largest that fits, or the smaller one the application asked for
    ensures space >= 16 ==> SizeFor(space, app, szx)
    ensures SentAs(body[..Min(|body|, MAX_BLK_LEN)], space, app, spaceAfter, szx, r)
    // the body is given back once, kept while the transfer runs, and given back twice by a late failure
    ensures released == if r.Started? || r.NeverReturns? then 0 else if r.Failed? && space >= 16 then 2 else 1
    // a later block starts at the byte its option names exactly if the size asked for fits
    ensures r.OneBlock? ==>
              (app.value.num * Chunk(szx) == app.value.num * Chunk(app.value.szx) <==> Chunk(app.value.szx) <= space)
    // the peer reads the first option as it was meant exactly if one of these kept the size below 4096
    ensures r.Started? ==>
              (Read(Some(r.put.block)) == Some(r.put.block) <==> app.Some? || space < 4096 || spaceAfter < 4096)
  {
    var d := body[..Min(|body|, MAX_BLK_LEN)];
    szx, released := 0, 1;
    var fls := Flsll(space);
    if fls.None? {
      r, released := NeverReturns, 0;
      return;
    }
    if space < 16 {
      if |d| > space || app.Some? {
        r := Failed;
        return;
      }
      r := Whole(d, None); // blk_size is not used on this path
      return;
    }
    szx := PickSize(space, fls.value, app);
    if app.Some? && app.value.num != 0 {
      LaterStart(space, app.value, szx);
    }
    r, released := Cut(d, space, app, spaceAfter, szx);
  }

  ghost predicate SizeFor(space: nat, app: Option<Block>, szx: nat)
  {
    && Chunk(szx) <= space
    && (if app.None? then space < Chunk(szx + 1)
        else szx <= app.value.szx && (szx < app.value.szx ==> space < Chunk(szx + 1)))
  }

  /** Block `num` in the size `szx`. */
  function CutAt(d: seq<byte>, num: nat, szx: nat): Start { OneBlock(Window(d, num * Chunk(szx), Chunk(szx))) }

  /** How a body `d` is sent when `szx` is the size picked. */
  ghost predicate SentAs(d: seq<byte>, space: int, app: Option<Block>, spaceAfter: int, szx: nat, r: Start)
  {
    var blocks := NeedsBlocks(|d|, space, app);
    // a body that needs no blocks is sent as it is
    && (r.Whole? ==> r.payload == d && !blocks && r.block == if app.Some? then Some(Block(0, false, szx)) else None)
    && (app.None? && !blocks && |d| <= space ==> r.Whole?)
    // otherwise a transfer starts, in the size picked or the largest smaller one that still fits
    && (r.Started? ==> blocks && Begins(d, r.sender, r.put, spaceAfter))
    && (r.Started? && r.sender.szx != szx ==> r.sender.szx < szx && spaceAfter < Chunk(r.sender.szx + 1))
    // unless the application asked for one later block
    && (r.OneBlock? <==> space >= 16 && app.Some? && app.value.num != 0)
    && (r.OneBlock? ==> r == CutAt(d, app.value.num, szx))
    && (r.Failed? <==> (0 <= space < 16 && (|d| > space || app.Some?)) || (blocks && spaceAfter < 16))
    && (r.NeverReturns? <==> space < 0)
  }

  /** The size is picked: one block, a transfer or the whole body. */
  method Cut(d: seq<byte>, space: nat, app: Option<Block>, spaceAfter: int, szx: nat) returns (r: Start, released: nat)
    requires space >= 16 && SizeFor(space, app, szx) && szx == Picked(space, app)
    requires app.Some? ==> app.value.num <= MAX_NUM && app.value.szx < 8
    ensures SentAs(d, space, app, spaceAfter, szx, r)
    ensures released == if r.Started? then 0 else if r.Failed? then 2 else 1
    ensures r.Started? ==>
              (Read(Some(r.put.block)) == Some(r.put.block) <==> app.Some? || space < 4096 || spaceAfter < 4096)
  {
    released := 1;
    if app.Some? && app.value.num != 0 {
      r := LaterBlock(d, app.value.num, szx);
      return;
    }
    if (app.Some? && |d| > Chunk(szx)) || |d| > space {
      r, released := FirstBlock(d, szx, spaceAfter);
      if r.Started? {
        ReadableStart(space, app, spaceAfter, szx, r.put.block);
      }
      return;
    }
    r := Whole(d, if app.Some? then Some(Block(0, false, szx)) else None);
  }

  /** The block the application asked for, which is empty past the end (src/block.c:417-436). */
  method LaterBlock(d: seq<byte>, num: nat, szx: nat) returns (r: Start)
    ensures r == CutAt(d, num, szx)
  {
    var at := num * Chunk(szx);
    r := OneBlock(if |d| >= at then Window(d, at, Chunk(szx)) else []);
  }

  lemma {:induction false} LaterStart(space: nat, asked: Block, szx: nat)
    requires SizeFor(space, Some(asked), szx) && asked.num != 0
    ensures asked.num * Chunk(szx) == asked.num * Chunk(asked.szx) <==> Chunk(asked.szx) <= space
  {
    if szx < asked.szx {
      ChunkScale(szx, asked.szx);
      ChunkScale(szx + 1, asked.szx);
      if asked.num * Chunk(szx) == asked.num * Chunk(asked.szx) {
        SameProduct(Chunk(szx), Chunk(asked.szx), asked.num);
      }
    }
  }

  /** The block size picked first: the largest that fits, up to the one asked for. */
  function Picked(space: nat, app: Option<Block>): nat
  {
    FittingSize(space, if app.Some? then app.value.szx else space)
  }

  lemma {:induction false} SizeBelowChunk(szx: nat)
    ensures szx < Chunk(szx)
  {
    if szx > 0 {
      SizeBelowChunk(szx - 1);
      ChunkScale(szx - 1, szx);
    }
  }

  /** A body of `len` bytes does not go into one PDU: it is longer than the space, or than the block size
      picked when an option is in the PDU already. */
  predicate NeedsBlocks(len: nat, space: int, app: Option<Block>)
  {
    && space >= 16 && (app.Some? ==> app.value.num == 0)
    && (len > space || (app.Some? && len > Chunk(Picked(space, app))))
  }

  /** The largest size that fits, or the smaller one the application put in (src/block.c:397-407). */
  method PickSize(space: nat, fls: nat, app: Option<Block>) returns (szx: nat)
    requires space >= 16 && fls == Fls(space)
    ensures SizeFor(space, app, szx) && szx == Picked(space, app)
  {
    szx := SizeOf(space, fls);
    if app.Some? && app.value.szx < szx {
      ChunkScale(app.value.szx, szx);
      szx := app.value.szx;
    } else {
      SizeBelowChunk(szx);
      FittingSizeUnique(space, if app.Some? then app.value.szx else space, szx);
    }
  }

  /** The options are in; check that there is still room and cut the first block (src/block.c:531-584). If
      there is none, the record being set up gives the body back and so does the failure exit. */
  method FirstBlock(d: seq<byte>, blkSize: nat, space: int) returns (r: Start, released: nat)
    requires |d| > Chunk(blkSize)
    ensures r.Failed? || r.Started?
    ensures r.Failed? <==> space < 16
    ensures r.Started? ==> Begins(d, r.sender, r.put, space)
    ensures r.Started? ==> r.sender.szx == blkSize || (r.sender.szx < blkSize && space < Chunk(r.sender.szx + 1))
    ensures released == if r.Failed? then 2 else 0
  {
    var szx := blkSize;
    if space < Chunk(szx) {
      if space < 16 {
        released := 1;                // coap_block_delete_lg_xmit
        return Failed, released + 1;
      }
      szx := LargestSize(space);
      SmallerChunk(szx, blkSize);
    }
    return Started(Sending(szx, -1, 0), Put(Block(0, true, szx), |d|, Window(d, 0, Chunk(szx)))), 0;
  }

  lemma {:induction false} Chunk8()
    ensures Chunk(8) == 4096
  {
    Pow2Add(6, 6);
    assert Pow2(6) == 64;
  }

  /** A size that is the largest for its space has three bits exactly if the space is below 4096. */
  lemma {:induction false} ThreeBits(szx: nat, space: nat)
    requires Chunk(szx) <= space
    ensures szx >= 8 ==> space >= 4096
    ensures space < Chunk(szx + 1) && szx < 8 ==> space < 4096
  {
    Chunk8();
    if szx >= 8 { ChunkScale(8, szx); } else { ChunkScale(szx + 1, 8); }
  }

  /** `szx` was picked for `space` and the first block's size is what the options left room for. */
  lemma {:induction false} ReadableStart(space: nat, app: Option<Block>, spaceAfter: nat, szx: nat, first: Block)
    requires first == Block(0, true, first.szx)
    requires Chunk(szx) <= space && (if app.None? then space < Chunk(szx + 1) else szx < 8)
    requires Chunk(first.szx) <= spaceAfter
    requires first.szx == szx || (first.szx < szx && spaceAfter < Chunk(first.szx + 1))
    ensures Read(Some(first)) == Some(first) <==> app.Some? || space < 4096 || spaceAfter < 4096
  {
    ThreeBits(szx, space);
    ThreeBits(first.szx, spaceAfter);
    if first.szx < 8 {
      OptionRoundTrip(first);
    }
  }

  /** A PDU with room for 4096 bytes after the options: the first block is announced as one of 16 bytes. */
  method RoomyFirstOption(body: seq<byte>) returns (r: Start)
    requires |body| > 4110
    ensures r.Started? && |r.put.payload| == 4096 && Read(Some(r.put.block)) == Some(Block(0, true, 0))
  {
    var szx, released;
    r, szx, released := AddDataLarge(body, 4110, None, 4096);
    assert r.Started?;
    assert szx == 8 by { SizeIsEight(szx, 4110); }
    assert r.put.block.szx == 8 by { SizeIsEight(r.put.block.szx, 4096); }
    assert |r.put.payload| == 4096 by { Chunk8(); }
    OversizeIsMisread(8);
  }

  lemma {:induction false} SizeIsEight(szx: nat, space: nat)
    requires 4096 <= space < 8192 && Chunk(szx) <= space
    ensures szx <= 8 && (space < Chunk(szx + 1) ==> szx == 8) && Chunk(8) == 4096
  {
    Chunk8();
    if szx > 8 { ChunkScale(8, szx); }
    if szx < 8 { ChunkScale(szx + 1, 8); }
  }

  /** Options that fill the PDU exactly leave room -1 and the call does not return; with one byte more it fails. */
  method FullPduNeverReturns(body: seq<byte>, spaceAfter: int) returns (r: Start, more: Start)
    requires body != []
    ensures r == NeverReturns && more == Failed
  {
    var szx, released;
    r, szx, released := AddDataLarge(body, -1, None, spaceAfter);
    more, szx, released := AddDataLarge(body, 0, None, spaceAfter);
  }

  /** Asked for block 1 of 1024 bytes with 1023 bytes left, bytes 512 to 1023 are sent under that option. */
  method LaterBlockIsShifted(body: seq<byte>, m: bool, spaceAfter: int) returns (r: Start)
    requires |body| >= 1024
    ensures r == OneBlock(body[512..1024])
  {
    var szx, released;
    r, szx, released := AddDataLarge(body, 1023, Some(Block(1, m, 6)), spaceAfter);
    assert szx == 5 && Chunk(5) == 512 by { SizeIsFive(szx); }
  }

  lemma {:induction false} SizeIsFive(szx: nat)
    requires SizeFor(1023, Some(Block(1, true, 6)), szx)
    ensures szx == 5 && Chunk(5) == 512
  {
    Pow2Add(4, 5);
    assert Pow2(4) == 16 && Pow2(5) == 32;
    if szx < 5 { ChunkScale(szx + 1, 5); }
    if szx > 5 { ChunkScale(5, szx); }
  }

  /** The same code answers a request for a later block once its option is written: the bytes sent start where
      they were asked for exactly if a block of the size written still fits what the option has left. */
  method AnswerLaterBlock(body: seq<byte>, asked: Block, room: nat, avail: nat, availAfter: int)
    returns (w: WriteResult, r: Option<Start>, szx: nat)
    requires 0 < asked.num <= MAX_NUM && asked.szx < 8 && avail >= 16
    ensures w == Settled(asked, room, |body|) && (r.Some? <==> w.Written?)
    ensures w.Written? ==> w.block.num * Chunk(w.block.szx) == asked.num * Chunk(asked.szx)
    ensures w.Written? && w.block.num <= MAX_NUM ==>
              && SizeFor(avail, Some(w.block), szx)
              && r == Some(CutAt(body[..Min(|body|, MAX_BLK_LEN)], w.block.num, szx))
              && (w.block.num * Chunk(szx) == asked.num * Chunk(asked.szx) <==> Chunk(w.block.szx) <= avail)
  {
    var opt, start, released;
    r, szx := None, 0;
    w, opt := WriteBlockOpt(asked, room, |body|);
    if w.Written? {
      OptionRoundTrip(w.block);
      SameStartNotZero(asked, w.block);
      start, szx, released := AddDataLarge(body, avail, Read(Some(w.block)), availAfter);
      r := Some(start);
    }
  }

  lemma {:induction false} SameStartNotZero(asked: Block, w: Block)
    requires asked.num > 0 && w.num * Chunk(w.szx) == asked.num * Chunk(asked.szx)
    ensures w.num > 0
  {
    MulMonotone(1, asked.num, Chunk(asked.szx));
  }

  /** Block 1 of 1024 bytes fits before its option is written and does not after. */
  method LaterAnswerIsShifted(body: seq<byte>, availAfter: int) returns (w: WriteResult, r: Option<Start>)
    requires 1024 < |body| <= 2048
    ensures w == Written(Block(1, false, 6)) && r == Some(OneBlock(body[512..1024]))
  {
    var szx;
    w, r, szx := AnswerLaterBlock(body, Block(1, false, 6), 1026, 1023, availAfter);
    assert Chunk(6) == 1024 by { Pow2Add(5, 5); assert Pow2(5) == 32; }
    assert szx == 5 && Chunk(5) == 512 by { SizeIsFive(szx); }
    assert body[..|body|] == body;
  }

  // ----- the response handler as a function of the transfer -----

  /** A changed size is taken over if the block in flight ends on a boundary of it; the number of the
      completed block is then recomputed in the new size (src/block.c:1451-1472). */
  function Adopt(s: Sender, b: Block): (r: (Sender, nat))
    requires s.Sending?
  {
    var done := s.offset + Chunk(s.szx);
    if b.szx != s.szx && done % Chunk(b.szx) == 0 then
      DivAligned(done, Chunk(b.szx));
      var num := done / Chunk(b.szx) - 1;
      (Sending(b.szx, s.last, num * Chunk(b.szx)), num)
    else
      (s, b.num)
  }

  /** `rb` is what coap_get_block finds in the response. */
  function OnResponse(data: seq<byte>, s: Sender, cls: nat, rb: Option<Block>): (Sender, Option<Put>)
    requires s.Sending?
  {
    if cls != 2 || rb.None? then (Finished, None)
    else
      var szx := rb.value.szx;
      var (s1, num) := Adopt(s, rb.value);
      if s1.last == num then (s1, None)
      else
        var c := Chunk(s1.szx);
        var next := (num + 1) * c;
        if next >= |data| then (Finished, None)
        else match AddBlock(data, num + 1, szx)
          case None => (Finished, None)
          case Some(p) =>
            (Sending(s1.szx, num, next), Some(Put(Block(num + 1, next + c < |data|, szx), |data|, p)))
  }

  lemma {:induction false} DivAligned(a: nat, c: nat)
    requires a > 0 && c > 0 && a % c == 0
    ensures a / c >= 1 && (a / c) * c == a
  {
  }

  /** coap_lg_xmit_t and coap_handle_response_send_block. */
  class LgXmit {
    const data: seq<byte>
    var blkSize: nat
    var lastBlock: int
    var offset: nat
    var linked: bool   // still in session->lg_xmit

    constructor (data: seq<byte>, szx: nat)
      ensures this.data == data && State() == Sending(szx, -1, 0)
    {
      this.data := data;
      blkSize, lastBlock, offset, linked := szx, -1, 0, true;
    }

    function State(): Sender
      reads this
    {
      if linked then Sending(blkSize, lastBlock, offset) else Finished
    }

    /** The size change at the start of the handler. */
    method AdoptSize(block: Block) returns (num: nat)
      requires linked
      modifies this
      ensures (State(), num) == Adopt(old(State()), block)
    {
      num := block.num;
      var done := offset + Chunk(blkSize);
      if block.szx != blkSize && done % Chunk(block.szx) == 0 {
        DivAligned(done, Chunk(block.szx));
        num := done / Chunk(block.szx) - 1;
        blkSize := block.szx;
        offset := num * Chunk(blkSize);
      }
    }

    /** `num` is the number of the completed block. */
    method HandleResponse(cls: nat, block: Option<Block>) returns (pdu: Option<Put>, ghost num: nat)
      requires linked
      modifies this
      ensures (State(), pdu) == OnResponse(data, old(State()), cls, block)
      // an error, or an answer without the option, ends the transfer
      ensures cls != 2 || block.None? ==> State() == Finished && pdu == None
      ensures cls == 2 && block.Some? ==>
                && Completes(old(State()), block.value, num)
                && GoesOn(data, old(State()), block.value, num, State(), pdu)
    {
      pdu, num := None, 0;
      if cls == 2 && block.Some? {
        num := AckGoesOn(data, State(), block.value);
        pdu := HandleAck(block.value);
      } else {
        linked := false;
      }
    }

    method HandleAck(block: Block) returns (pdu: Option<Put>)
      requires linked
      modifies this
      ensures (State(), pdu) == OnResponse(data, old(State()), 2, Some(block))
    {
      pdu := None;
      var num := AdoptSize(block);
      var chunk := Chunk(blkSize);
      if lastBlock == num {
        return;
      }
      lastBlock := num;
      offset := (num + 1) * chunk;
      if offset < |data| {
        var payload := AddBlock(data, num + 1, block.szx);
        if payload.Some? {
          pdu := Some(Put(Block(num + 1, offset + chunk < |data|, block.szx), |data|, payload.value));
          return;
        }
      }
      linked := false;
    }
  }

  // ----- what an acknowledgement leads to -----

  /** A changed size is taken over if the block in flight ends on one of its boundaries. */
  predicate Changes(s: Sender, b: Block)
    requires s.Sending?
  {
    b.szx != s.szx && (s.offset + Chunk(s.szx)) % Chunk(b.szx) == 0
  }

  /** `num` is the completed block: the one that ends where the block in flight does if the size is taken over,
      and the one that is named otherwise. */
  predicate Completes(s: Sender, b: Block, num: nat)
    requires s.Sending?
  {
    if Changes(s, b) then (num + 1) * Chunk(b.szx) == s.offset + Chunk(s.szx) else num == b.num
  }

  /** The last acknowledgement once more sends nothing. Otherwise the block after `num` is sent and remembered;
      if there is none the transfer ends. */
  predicate GoesOn(data: seq<byte>, s: Sender, b: Block, num: nat, next: Sender, pdu: Option<Put>)
    requires s.Sending?
  {
    var szx, c := if Changes(s, b) then b.szx else s.szx, Chunk(b.szx);
    var at := (num + 1) * Chunk(szx);
    if num == s.last then pdu == None && next == Sending(szx, s.last, if Changes(s, b) then num * c else s.offset)
    else if at < |data| && (num + 1) * c < |data| then
      && next == Sending(szx, num, at) && pdu.Some? && pdu.value.size1 == |data|
      && pdu.value.block == Block(num + 1, at + Chunk(szx) < |data|, b.szx)
      && pdu.value.payload == Window(data, (num + 1) * c, c)
    else next == Finished && pdu == None
  }

  lemma {:induction false} AckGoesOn(data: seq<byte>, s: Sender, b: Block) returns (num: nat)
    requires s.Sending?
    ensures Completes(s, b, num)
    ensures var (next, pdu) := OnResponse(data, s, 2, Some(b)); GoesOn(data, s, b, num, next, pdu)
  {
    num := Adopt(s, b).1;
    var done := s.offset + Chunk(s.szx);
    if Changes(s, b) { DivAligned(done, Chunk(b.szx)); }
    AddBlockIsWindow(data, num + 1, b.szx);
  }

  // ----- which acknowledgements the transfer survives -----

  /** `b` answers the block in flight, numbered in the sender's current size. */
  predicate Answers(s: Sender, b: Block)
    requires s.Sending?
  {
    b.num * Chunk(s.szx) == s.offset
  }

  /** The size in an answer the sender can go on with: the block in flight ends on one of its boundaries,
      and it does not double the size at block 1 (where the recomputed number equals the last one). */
  predicate Usable(s: Sender, szx: nat)
    requires s.Sending?
  {
    && (s.offset + Chunk(s.szx)) % Chunk(szx) == 0
    && !(s.last == 0 && szx == s.szx + 1)
  }

  predicate Repeats(s: Sender, b: Block)
    requires s.Sending?
  {
    b.szx == s.szx && b.num == s.last
  }

  predicate GoodAck(s: Sender, b: Block)
    requires s.Sending?
  {
    Repeats(s, b) || (Answers(s, b) && Usable(s, b.szx))
  }

  /** Everything up to the end of the block in flight has been sent, once and in order. */
  datatype Progress = Progress(s: Sender, sent: seq<byte>)

  ghost predicate Gapless(data: seq<byte>, p: Progress)
  {
    match p.s
    case Finished => p.sent == data
    case Sending(szx, last, offset) =>
      && last >= -1 && offset == (last + 1) * Chunk(szx) && offset < |data|
      && p.sent == data[..Min(offset + Chunk(szx), |data|)]
  }

  /** An acknowledgement with block option `b` arrives. */
  function Advance(data: seq<byte>, p: Progress, b: Block): Progress
  {
    if p.s.Finished? then p
    else
      var (s, put) := OnResponse(data, p.s, 2, Some(b));
      Progress(s, p.sent + (if put.Some? then put.value.payload else []))
  }

  /** Sizes that do not grow are always usable. */
  lemma {:induction false} ReductionIsUsable(s: Sender, szx: nat)
    requires s.Sending? && s.last >= -1 && s.offset == (s.last + 1) * Chunk(s.szx) && szx <= s.szx
    ensures Usable(s, szx)
  {
    var k, c := Pow2(s.szx - szx), Chunk(szx);
    ChunkScale(szx, s.szx);
    var done := s.offset + Chunk(s.szx);
    assert done == (s.last + 2) * Chunk(s.szx);
    MulAssoc(s.last + 2, k, c);
    ModUnique(done, (s.last + 2) * k, 0, c);
  }

  /** The number recomputed on a size change stands for the end of the block in flight and, unless the
      size doubles at block 1, is not mistaken for the last acknowledged one. */
  lemma {:induction false} AdoptedNumber(s: Sender, b: Block)
    requires s.Sending? && s.last >= -1 && s.offset == (s.last + 1) * Chunk(s.szx)
    requires Answers(s, b)
    requires (s.offset + Chunk(s.szx)) % Chunk(b.szx) == 0
    ensures var (s1, num) := Adopt(s, b);
            && s1.szx == b.szx && s1.last == s.last
            && (num + 1) * Chunk(s1.szx) == s.offset + Chunk(s.szx)
            && (num == s.last <==> s.last == 0 && b.szx == s.szx + 1)
  {
    var c, c' := Chunk(s.szx), Chunk(b.szx);
    var (s1, num) := Adopt(s, b);
    var k := s.last + 1;
    if b.szx == s.szx {
      SameProduct(b.num, k, c);
    } else {
      DivAligned(s.offset + c, c');
      assert (num + 1) * c' == (k + 1) * c;
      if b.szx < s.szx {
        ChunkScale(b.szx, s.szx);
        MoreSmallOnes(k, num + 1, c', c);
      } else {
        ChunkScale(s.szx, b.szx);
        NumberClash(k, num + 1, c, c', Pow2(b.szx - s.szx));
        Pow2IsTwo(b.szx - s.szx);
      }
    }
  }

  lemma {:induction false} MoreSmallOnes(k: nat, n: nat, small: nat, c: nat)
    requires 0 < small <= c && n * small == (k + 1) * c
    ensures n > k
  {
    assert (k + 1) * c == k * c + c;
    assert k * small <= k * c;
    if n <= k {
      MulMonotone(n, k, small);
    }
  }

  lemma {:induction false} Pow2IsTwo(d: nat)
    requires d > 0
    ensures Pow2(d) >= 2 && (Pow2(d) == 2 <==> d == 1)
  {
    if d > 1 {
      Pow2Monotone(1, d - 1);
    }
  }

  /** (k + 1) blocks of size c are n blocks of size r * c; n is k only for k = 1 and r = 2. */
  lemma {:induction false} NumberClash(k: nat, n: nat, c: nat, big: nat, r: nat)
    requires c > 0 && big == r * c && r >= 2 && n * big == (k + 1) * c
    ensures n == k <==> k == 1 && r == 2
  {
    assert n * r == k + 1 by {
      MulAssoc(n, r, c);
      SameProduct(n * r, k + 1, c);
    }
    if n == k {
      assert k != 0;
      assert k * r == k * 2 + k * (r - 2);
      if k >= 2 { MulMonotone(0, r - 2, k); assert false; }
    }
    if k == 1 && r == 2 { assert n * 2 == 2; }
  }

  // ----- whole runs -----

  /** A good acknowledgement keeps what was sent free of gaps and overlaps; unless it repeats the last
      one it moves the transfer forward by exactly the block that was in flight. */
  lemma {:induction false} GoodAckStep(data: seq<byte>, p: Progress, b: Block)
    requires Gapless(data, p) && p.s.Sending? && GoodAck(p.s, b)
    ensures Gapless(data, Advance(data, p, b))
    ensures Repeats(p.s, b) ==> Advance(data, p, b) == p
    ensures !Repeats(p.s, b) ==>
              var q := Advance(data, p, b);
              var next := p.s.offset + Chunk(p.s.szx);
              if next < |data| then q.s.Sending? && q.s.offset == next && q.s.szx == b.szx else q.s.Finished?
  {
    if Repeats(p.s, b) {
      assert p.sent + [] == p.sent;
    } else {
      AdoptedNumber(p.s, b);
      var (s1, num) := Adopt(p.s, b);
      var next := p.s.offset + Chunk(p.s.szx);
      AddBlockIsWindow(data, num + 1, b.szx);
      if next < |data| {
        ExtendPrefix(data, next, Chunk(b.szx));
      } else {
        assert p.sent + [] == data;
      }
    }
  }

  function AdvanceAll(data: seq<byte>, p: Progress, acks: seq<Block>): Progress
    decreases |acks|
  {
    if acks == [] then p else AdvanceAll(data, Advance(data, p, acks[0]), acks[1..])
  }

  ghost predicate GoodRun(data: seq<byte>, p: Progress, acks: seq<Block>)
    decreases |acks|
  {
    acks == [] || p.s.Finished? || (GoodAck(p.s, acks[0]) && GoodRun(data, Advance(data, p, acks[0]), acks[1..]))
  }

  /** In every run of good acknowledgements the payloads are a prefix of the body, without gap or overlap,
      under any sequence of size changes; the transfer ends only with all of it sent. */
  lemma {:induction false} GaplessRun(data: seq<byte>, p: Progress, acks: seq<Block>)
    requires Gapless(data, p) && GoodRun(data, p, acks)
    ensures Gapless(data, AdvanceAll(data, p, acks))
    decreases |acks|
  {
    if acks != [] {
      if p.s.Finished? {
        assert Advance(data, p, acks[0]) == p;
      } else {
        GoodAckStep(data, p, acks[0]);
      }
      GaplessRun(data, Advance(data, p, acks[0]), acks[1..]);
    }
  }

  /** The first block leaves the transfer gapless. */
  lemma {:induction false} StartIsGapless(d: seq<byte>, sender: Sender, put: Put, space: nat)
    requires Begins(d, sender, put, space)
    ensures Gapless(d, Progress(sender, put.payload))
  {
  }

  /** An answer to the block in flight makes the sender continue with the very next byte exactly when its
      size is usable. */
  lemma {:induction false} ResumesIffUsable(data: seq<byte>, p: Progress, b: Block)
    requires Gapless(data, p) && p.s.Sending? && Answers(p.s, b)
    requires p.s.offset + Chunk(p.s.szx) < |data|
    ensures var put := OnResponse(data, p.s, 2, Some(b)).1;
            (put.Some? && put.value.block.num * Chunk(put.value.block.szx) == p.s.offset + Chunk(p.s.szx))
            <==> Usable(p.s, b.szx)
  {
    if (p.s.offset + Chunk(p.s.szx)) % Chunk(b.szx) == 0 {
      AdoptedNumber(p.s, b);
      AddBlockIsWindow(data, Adopt(p.s, b).1 + 1, b.szx);
    } else {
      RefusedSizeMisplaces(data, p, b);
    }
  }

  /** A size that is refused still numbers the next block, which then starts elsewhere. */
  lemma {:induction false} RefusedSizeMisplaces(data: seq<byte>, p: Progress, b: Block)
    requires Gapless(data, p) && p.s.Sending? && Answers(p.s, b)
    requires (p.s.offset + Chunk(p.s.szx)) % Chunk(b.szx) != 0
    ensures var put := OnResponse(data, p.s, 2, Some(b)).1;
            put.Some? ==> put.value.block.num * Chunk(put.value.block.szx) != p.s.offset + Chunk(p.s.szx)
  {
    var c, c', k := Chunk(p.s.szx), Chunk(b.szx), b.num + 1;
    assert k * c == p.s.offset + c;
    assert Adopt(p.s, b) == (p.s, b.num);
    if k * c' == k * c {
      SameProduct(c', c, k);
      ModUnique(k * c, k, 0, c);
    }
  }

  /** Doubling the size at block 1 is taken for a repeated acknowledgement: nothing is sent, and when the
      peer repeats itself the sender skips a whole block. */
  lemma {:induction false} DoublingAtBlockOneSkips(data: seq<byte>)
    requires |data| > 64
    ensures var s := Sending(0, 0, 16);
            var ack := Block(1, true, 1);
            Gapless(data, Progress(s, data[..32])) && Answers(s, ack) && !Usable(s, ack.szx)
    ensures var s := Sending(0, 0, 16);
            var ack := Block(1, true, 1);
            var (s1, none) := OnResponse(data, s, 2, Some(ack));
            && none == None && s1.Sending?
            && var put := OnResponse(data, s1, 2, Some(ack)).1;
               put.Some? && put.value.block.num * Chunk(put.value.block.szx) == 64
  {
    assert Pow2(4) == 16;
    assert Chunk(0) == 16;
    assert Chunk(1) == 32;
    var s, ack := Sending(0, 0, 16), Block(1, true, 1);
    assert Adopt(s, ack) == (Sending(1, 0, 0), 0);
    var s1 := OnResponse(data, s, 2, Some(ack)).0;
    assert s1 == Sending(1, 0, 0);
    AddBlockIsWindow(data, 2, 1);
  }
}
