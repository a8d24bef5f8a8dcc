/** A Block1 transfer end to end: the sender, the receiver and a network that loses, repeats and reorders. */
module Block1Net {
  import opened Common
  import opened BlockOption
  import opened RecBlocks
  import opened Reassembly
  import opened Block1Sender
  import opened Block1Receiver

  /** `puts` and `acks` are everything ever sent: a message may arrive any number of times, or never. */
  datatype World = World(sender: Sender, recv: Receiver, puts: set<Put>, acks: set<Resp>, calls: set<Delivery>)

  datatype Event =
    | ToServer(put: Put, memory: Memory, appCls: nat)   // a request arrives; the handler answers with appCls
    | ToClient(resp: Resp)                              // a response arrives
    | Expire                                            // the server drops a finished entry

  /** The transfer of `data` in blocks of `szx` with content format `fmt`, the server's COAP_RBLOCK_CNT and
      whether its session is in single-body mode. */
  datatype Setting = Setting(data: seq<byte>, szx: nat, fmt: nat, cap: nat, single: bool) {
    ghost predicate Valid()
    {
      Chunk(szx) < |data| <= MAX_BLK_LEN && szx < 8 && cap >= 2
    }

    /** The request that carries block `k`. */
    function PutOf(k: nat): Put
    {
      var c := Chunk(szx);
      Put(Block(k, k * c + c < |data|, szx), |data|, Window(data, k * c, c))
    }

    /** Block `k` as the handler gets it when bodies are not put together. */
    function Piece(k: nat): Delivery
    {
      var c := Chunk(szx);
      Random(k * c, Window(data, k * c, c), |data|)
    }

    function Init(): World { World(Sending(szx, -1, 0), Idle, {PutOf(0)}, {}, {}) }

    /** Every block number fits the 20 bits of the option. */
    predicate NumbersFit() { BlockCount(|data|, Chunk(szx)) <= MAX_NUM + 1 }
  }

  /** The world as coap_add_data_large_internal leaves it. */
  lemma {:induction false} InitIsStart(x: Setting, sender: Sender, put: Put, space: int)
    requires x.Valid() && Begins(x.data, sender, put, space) && put.block.szx == x.szx
    ensures x.Init() == World(sender, Idle, {put}, {}, {})
  {
    assert 0 * Chunk(x.szx) == 0;
  }

  ghost function Step(x: Setting, w: World, e: Event): World
  {
    match e
    case ToServer(put, memory, appCls) =>
      if put !in w.puts then w
      else
        var (r, reply, call) :=
          OnPut(x.cap, x.single, w.recv, x.fmt, Read(Some(put.block)), put.size1, put.payload, memory, appCls);
        w.(recv := r, acks := w.acks + Opt(reply), calls := w.calls + {call})
    case ToClient(resp) =>
      if resp !in w.acks || w.sender.Finished? then w
      else
        var (s, put) := OnResponse(x.data, w.sender, resp.cls, Read(resp.block));
        w.(sender := s, puts := w.puts + Opt(put))
    case Expire =>
      if w.recv.Receiving? && w.recv.done then w.(recv := Idle) else w
  }

  ghost function Opt<T>(o: Option<T>): set<T> { if o.None? then {} else {o.value} }

  ghost function Run(x: Setting, w: World, events: seq<Event>): World
    decreases |events|
  {
    if events == [] then w else Step(x, Run(x, w, events[..|events| - 1]), events[|events| - 1])
  }

  // ----- what the handler may be given -----

  /** A whole body is the sender's; a single block is the right piece of it, and its total tells whether
      there is more. */
  ghost predicate Faithful(data: seq<byte>, call: Delivery)
  {
    match call
    case Nothing => true
    case WholeBody(body, length) => body == data && length == |data|
    case Random(offset, payload, total) =>
      && offset + |payload| <= total <= |data| && payload == data[offset..offset + |payload|]
      && (total == offset + |payload| <==> offset + |payload| == |data|)
    case Plain(payload) => payload == data
    case NullDereference => false
  }

  // ----- the invariant -----

  ghost predicate IsBlock(x: Setting, k: nat) { k * Chunk(x.szx) < |x.data| }

  ghost predicate GoodPut(x: Setting, put: Put)
  {
    IsBlock(x, put.block.num) && put == x.PutOf(put.block.num)
  }

  ghost predicate GoodResp(x: Setting, r: Resp)
  {
    r.cls == 2 && r.block.Some? ==> r.block.value.szx == x.szx && IsBlock(x, r.block.value.num)
  }

  ghost predicate GoodRecv(x: Setting, r: Receiver)
  {
    r.Receiving? ==>
      r.fmt == x.fmt && r.total == |x.data| && Covers(x, r.part)
  }

  ghost predicate Covers(x: Setting, p: Partial)
  {
    && (forall k :: k in p.got ==> IsBlock(x, k))
    && (p.body.None? ==> p.got == {})
    && (p.body.Some? ==> |p.body.value| == |x.data| && Covered(p.got, p.body.value, x.data, Chunk(x.szx)))
  }

  ghost predicate Inv(x: Setting, w: World)
  {
    && (w.sender.Sending? ==> w.sender.szx == x.szx)
    && (forall put :: put in w.puts ==> GoodPut(x, put))
    && (forall r :: r in w.acks ==> GoodResp(x, r))
    && GoodRecv(x, w.recv)
    && (forall call :: call in w.calls ==> Faithful(x.data, call))
  }

  lemma {:induction false} BlockReadable(x: Setting, k: nat, m: bool)
    requires x.Valid() && IsBlock(x, k)
    ensures Read(Some(Block(k, m, x.szx))) == if k <= MAX_NUM then Some(Block(k, m, x.szx)) else None
  {
    SmallNumber(k, Chunk(x.szx));
    OptionRoundTrip(Block(k, m, x.szx));
  }

  lemma {:induction false} FittingBlock(x: Setting, k: nat)
    requires x.NumbersFit() && IsBlock(x, k)
    ensures k <= MAX_NUM
  {
    BlockInside(|x.data|, Chunk(x.szx), k);
  }

  lemma {:induction false} ExpectedIsCount(x: Setting)
    requires x.Valid()
    ensures Expected(|x.data|, Chunk(x.szx)) == BlockCount(|x.data|, Chunk(x.szx))
  {
    ChunkScale(x.szx, 7);
    assert Chunk(7) == 2048 by { Pow2Add(4, 7); assert Pow2(4) == 16; assert Pow2(7) == 128; }
  }

  /** Recording a block keeps the buffer exact. */
  lemma {:induction false} RecordKeepsCovers(x: Setting, p: Partial, k: nat, memory: Memory)
    requires x.Valid() && Covers(x, p) && IsBlock(x, k)
    ensures var c := Chunk(x.szx);
            var q := Recorded(p, k, Window(x.data, k * c, c), k * c, |x.data|, memory);
            Covers(x, q) && q.body.Some? && q.got == p.got + {k}
  {
    var c := Chunk(x.szx);
    if k !in p.got {
      assert Sound(p, x.data, c);
      AbsorbKeepsSound(p, Arrival(k, memory), x.data, c);
    } else {
      assert p.got == p.got + {k};
    }
  }

  /** One block at the server: the entry stays exact and the handler gets nothing wrong. */
  lemma {:induction false} ServerStep(x: Setting, r: Receiver, k: nat, memory: Memory, appCls: nat)
    requires x.Valid() && GoodRecv(x, r) && IsBlock(x, k)
    ensures var put := x.PutOf(k);
            var (r', reply, call) :=
              OnPut(x.cap, x.single, r, x.fmt, Some(put.block), put.size1, put.payload, memory, appCls);
            GoodRecv(x, r') && (reply.Some? ==> GoodResp(x, reply.value)) && Faithful(x.data, call)
  {
    var c := Chunk(x.szx);
    var p := if r.Idle? then Partial({}, None) else r.part;
    RecordKeepsCovers(x, p, k, memory);
    var q := Recorded(p, k, Window(x.data, k * c, c), k * c, |x.data|, memory);
    ExpectedIsCount(x);
    if Complete(q.got, BlockCount(|x.data|, c)) {
      CompleteBody(q.got, q.body.value, x.data, c);
      assert q.body.value[..|x.data|] == q.body.value;
    }
    if k == 0 { assert k * c == 0; }
    RandomIsFaithful(x.data, k * c, c);
    PassedIsPiece(x, k, if r.Idle? then Receiving(x.fmt, |x.data|, p, false) else r, appCls);
  }

  /** Without single-body mode the handler gets the block with its place in the body. */
  lemma {:induction false} PassedIsPiece(x: Setting, k: nat, r: Receiver, appCls: nat)
    requires IsBlock(x, k) && r.Receiving?
    ensures var put := x.PutOf(k);
            PassedOn(r, put.block, |x.data|, put.payload, appCls).2 == x.Piece(k) && Faithful(x.data, x.Piece(k))
  {
  }

  lemma {:induction false} RandomIsFaithful(data: seq<byte>, off: nat, c: nat)
    requires off < |data| && c > 0
    ensures var p := Window(data, off, c);
            Faithful(data, Random(off, p, |p| + off + if off + c < |data| then 1 else 0))
  {
  }

  lemma {:induction false} ToServerKeepsInv(x: Setting, w: World, put: Put, memory: Memory, appCls: nat)
    requires x.Valid() && x.NumbersFit() && Inv(x, w) && put in w.puts
    ensures Inv(x, Step(x, w, ToServer(put, memory, appCls)))
  {
    FittingBlock(x, put.block.num);
    BlockReadable(x, put.block.num, put.block.m);
    ServerStep(x, w.recv, put.block.num, memory, appCls);
    var (r, reply, call) :=
      OnPut(x.cap, x.single, w.recv, x.fmt, Some(put.block), put.size1, put.payload, memory, appCls);
    ReceivedKeepsInv(x, w, r, reply, call);
  }

  lemma {:induction false} ReceivedKeepsInv(x: Setting, w: World, r: Receiver, reply: Option<Resp>, call: Delivery)
    requires Inv(x, w) && GoodRecv(x, r) && (reply.Some? ==> GoodResp(x, reply.value)) && Faithful(x.data, call)
    ensures Inv(x, w.(recv := r, acks := w.acks + Opt(reply), calls := w.calls + {call}))
  {
  }

  lemma {:induction false} ToClientKeepsInv(x: Setting, w: World, resp: Resp)
    requires x.Valid() && x.NumbersFit() && Inv(x, w) && resp in w.acks && w.sender.Sending?
    ensures Inv(x, Step(x, w, ToClient(resp)))
  {
    if resp.cls == 2 && resp.block.Some? {
      var b := resp.block.value;
      BlockReadable(x, b.num, b.m);
      FittingBlock(x, b.num);
      SenderStep(x, w.sender, b);
    }
  }

  lemma {:induction false} StepKeepsInv(x: Setting, w: World, e: Event)
    requires x.Valid() && x.NumbersFit() && Inv(x, w)
    ensures Inv(x, Step(x, w, e))
  {
    match e
    case ToServer(put, memory, appCls) =>
      if put in w.puts {
        ToServerKeepsInv(x, w, put, memory, appCls);
      } else {
        assert Step(x, w, e) == w;
      }
    case ToClient(resp) =>
      if resp in w.acks && w.sender.Sending? {
        ToClientKeepsInv(x, w, resp);
      } else {
        assert Step(x, w, e) == w;
      }
    case Expire =>
  }

  /** At the size in use, the sender answers an acknowledgement of block `k` with block `k + 1`. */
  lemma {:induction false} SenderStep(x: Setting, s: Sender, b: Block)
    requires x.Valid() && s.Sending? && s.szx == x.szx == b.szx
    ensures var (s', put) := OnResponse(x.data, s, 2, Some(b));
            && (s'.Sending? ==> s'.szx == x.szx)
            && (put.Some? ==> put.value == x.PutOf(b.num + 1) && IsBlock(x, b.num + 1))
    ensures s.last != b.num && IsBlock(x, b.num + 1) ==>
              OnResponse(x.data, s, 2, Some(b)) ==
              (Sending(x.szx, b.num, (b.num + 1) * Chunk(x.szx)), Some(x.PutOf(b.num + 1)))
  {
    AddBlockIsWindow(x.data, b.num + 1, x.szx);
  }

  lemma {:induction false} RunKeepsInv(x: Setting, w: World, events: seq<Event>)
    requires x.Valid() && x.NumbersFit() && Inv(x, w)
    ensures Inv(x, Run(x, w, events))
    decreases |events|
  {
    if events != [] {
      RunKeepsInv(x, w, events[..|events| - 1]);
      StepKeepsInv(x, Run(x, w, events[..|events| - 1]), events[|events| - 1]);
    }
  }

  // ----- the run without losses -----

  /** Blocks 0..k-1 have been received and acknowledged, block k is on its way. */
  ghost predicate Reached(x: Setting, w: World, k: nat)
  {
    && w.sender == Sending(x.szx, k - 1, k * Chunk(x.szx))
    && x.PutOf(k) in w.puts
    && GoodRecv(x, w.recv)
    && (if k == 0 then w.recv == Idle else InOrder(x, w, k))
  }

  /** What has become of the first `k` blocks. */
  ghost predicate InOrder(x: Setting, w: World, k: nat)
  {
    && w.recv.Receiving?
    && (if x.single then w.recv.part.got == Prefix(k) else forall j: nat :: j < k ==> x.Piece(j) in w.calls)
  }

  /** The next block in order is recorded, completes the body exactly when it is the last one, and is
      acknowledged otherwise. */
  lemma {:induction false} InOrderAtServer(x: Setting, w: World, k: nat, memory: Memory)
    requires x.Valid() && Reached(x, w, k) && IsBlock(x, k) && k <= MAX_NUM
    ensures var n := BlockCount(|x.data|, Chunk(x.szx));
            var w' := Step(x, w, ToServer(x.PutOf(k), memory, 2));
            && w'.sender == w.sender && GoodRecv(x, w'.recv) && InOrder(x, w', k + 1)
            && (k + 1 < n ==> Resp(2, Some(x.PutOf(k).block)) in w'.acks)
            && (k + 1 == n && x.single ==> WholeBody(x.data, |x.data|) in w'.calls)
            && (k + 1 == n ==> w'.recv.done && Resp(2, None) in w'.acks)
  {
    BlockReadable(x, k, x.PutOf(k).block.m);
    ServerStep(x, w.recv, k, memory, 2);
    BlockInside(|x.data|, Chunk(x.szx), k);
    if x.single {
      InOrderSingle(x, w, k, memory);
    } else {
      InOrderPieces(x, w, k, memory);
    }
  }

  lemma {:induction false} InOrderPieces(x: Setting, w: World, k: nat, memory: Memory)
    requires x.Valid() && !x.single && Reached(x, w, k) && k < BlockCount(|x.data|, Chunk(x.szx))
    ensures var (r, reply, call) :=
              OnPut(x.cap, x.single, w.recv, x.fmt, Some(x.PutOf(k).block), |x.data|, x.PutOf(k).payload, memory, 2);
            && r.Receiving? && call == x.Piece(k)
            && (k + 1 < BlockCount(|x.data|, Chunk(x.szx)) ==> reply == Some(Resp(2, Some(x.PutOf(k).block))))
            && (k + 1 == BlockCount(|x.data|, Chunk(x.szx)) ==> r.done && reply == Some(Resp(2, None)))
  {
    var r := if k == 0 then Receiving(x.fmt, |x.data|, Partial({}, None), false) else w.recv;
    BlockInside(|x.data|, Chunk(x.szx), k);
    MoreUntilLast(|x.data|, x.szx, k);
    assert k == 0 ==> k * Chunk(x.szx) == 0;
    PassedIsPiece(x, k, r, 2);
  }

  lemma {:induction false} InOrderSingle(x: Setting, w: World, k: nat, memory: Memory)
    requires x.Valid() && x.single && Reached(x, w, k) && IsBlock(x, k)
    ensures var n := BlockCount(|x.data|, Chunk(x.szx));
            var (r, reply, call) :=
              OnPut(x.cap, x.single, w.recv, x.fmt, Some(x.PutOf(k).block), |x.data|, x.PutOf(k).payload, memory, 2);
            && r.Receiving? && r.part.got == Prefix(k + 1)
            && (k + 1 < n ==> reply == Some(Resp(2, Some(x.PutOf(k).block))))
            && (k + 1 == n ==> call == WholeBody(x.data, |x.data|) && r.done && reply == Some(Resp(2, None)))
  {
    var c := Chunk(x.szx);
    var n := BlockCount(|x.data|, c);
    ServerStep(x, w.recv, k, memory, 2);
    var p := if k == 0 then Partial({}, None) else w.recv.part;
    assert p.got == Prefix(k);
    RecordKeepsCovers(x, p, k, memory);
    NextIsAccepted(k, x.cap);
    ExpectedIsCount(x);
    BlockInside(|x.data|, c, k);
    BlockInside(|x.data|, c, k + 1);
    assert (k + 1) * c == k * c + c;
    if k + 1 < n {
      NotYetComplete(k + 1, n);
    } else {
      assert Complete(Prefix(k + 1), n);
      var put := x.PutOf(k);
      var (r, reply, call) :=
        OnPut(x.cap, x.single, w.recv, x.fmt, Some(put.block), put.size1, put.payload, memory, 2);
      assert call.WholeBody?;
    }
  }

  lemma {:induction false} InOrderAtClient(x: Setting, w: World, k: nat)
    requires x.Valid() && IsBlock(x, k) && IsBlock(x, k + 1) && k <= MAX_NUM
    requires w.sender == Sending(x.szx, k - 1, k * Chunk(x.szx))
    requires GoodRecv(x, w.recv) && InOrder(x, w, k + 1)
    requires Resp(2, Some(x.PutOf(k).block)) in w.acks
    ensures Reached(x, Step(x, w, ToClient(Resp(2, Some(x.PutOf(k).block)))), k + 1)
  {
    BlockReadable(x, k, x.PutOf(k).block.m);
    SenderStep(x, w.sender, x.PutOf(k).block);
  }

  lemma {:induction false} LosslessPrefix(x: Setting, k: nat) returns (events: seq<Event>)
    requires x.Valid() && IsBlock(x, k) && k <= MAX_NUM + 1
    ensures Reached(x, Run(x, x.Init(), events), k)
  {
    if k == 0 {
      events := [];
    } else {
      var c := Chunk(x.szx);
      assert k * c == (k - 1) * c + c;
      var before := LosslessPrefix(x, k - 1);
      var w := Run(x, x.Init(), before);
      var e1 := ToServer(x.PutOf(k - 1), _ => 0, 2);
      InOrderAtServer(x, w, k - 1, _ => 0);
      BlockInside(|x.data|, c, k);
      var e2 := ToClient(Resp(2, Some(x.PutOf(k - 1).block)));
      InOrderAtClient(x, Step(x, w, e1), k - 1);
      events := before + [e1] + [e2];
      OneMore(x, x.Init(), before, e1);
      OneMore(x, x.Init(), before + [e1], e2);
    }
  }

  lemma {:induction false} OneMore(x: Setting, w: World, before: seq<Event>, e: Event)
    ensures Run(x, w, before + [e]) == Step(x, Run(x, w, before), e)
  {
    assert (before + [e])[..|before|] == before;
  }

  // ----- the theorems -----

  ghost predicate AllFaithful(x: Setting, events: seq<Event>)
  {
    forall call :: call in Run(x, x.Init(), events).calls ==> Faithful(x.data, call)
  }

  /** Under every loss, repetition, reordering and expiry the handler is given only the sender's body or
      correct pieces of it, exactly when all block numbers of the body fit the option. */
  lemma {:induction false} EndToEnd(x: Setting)
    requires x.Valid()
    ensures x.NumbersFit() <==> forall events :: AllFaithful(x, events)
  {
    if x.NumbersFit() {
      forall events
        ensures AllFaithful(x, events)
      {
        assert IsBlock(x, 0);
        RunKeepsInv(x, x.Init(), events);
      }
    } else {
      var events := TooLargeBodyMisread(x);
      assert !AllFaithful(x, events);
    }
  }

  /** Block 2^20 has an option the receiver cannot read, so its payload passes for a whole request. */
  lemma {:induction false} TooLargeBodyMisread(x: Setting) returns (events: seq<Event>)
    requires x.Valid() && !x.NumbersFit()
    ensures !AllFaithful(x, events)
  {
    var k := MAX_NUM + 1;
    BlockInside(|x.data|, Chunk(x.szx), k);
    var before := LosslessPrefix(x, k);
    var e := ToServer(x.PutOf(k), _ => 0, 2);
    BlockReadable(x, k, x.PutOf(k).block.m);
    events := before + [e];
    OneMore(x, x.Init(), before, e);
    assert Plain(x.PutOf(k).payload) in Run(x, x.Init(), events).calls;
    assert |x.PutOf(k).payload| <= Chunk(x.szx);
  }

  /** The handler has been given everything: the body, or each of its blocks. */
  ghost predicate Delivered(x: Setting, w: World)
  {
    if x.single then WholeBody(x.data, |x.data|) in w.calls
    else forall k: nat :: IsBlock(x, k) ==> x.Piece(k) in w.calls
  }

  /** The entry of a body that has been put together. */
  ghost predicate CompleteEntry(x: Setting, r: Receiver)
  {
    x.single && GoodRecv(x, r) && r.Receiving? && Complete(r.part.got, BlockCount(|x.data|, Chunk(x.szx)))
  }

  /** The transfer is over on both sides: the entry will expire and the sender has let go of its body. */
  ghost predicate Ended(x: Setting, w: World)
  {
    && w.sender.Finished? && w.recv.Receiving? && w.recv.done && (x.single ==> CompleteEntry(x, w.recv))
    && Step(x, w, Expire).recv == Idle
  }

  /** Without losses the handler does get everything, and the transfer ends. */
  lemma {:induction false} LosslessDelivers(x: Setting) returns (events: seq<Event>)
    requires x.Valid() && x.NumbersFit()
    ensures Delivered(x, Run(x, x.Init(), events)) && Ended(x, Run(x, x.Init(), events))
  {
    var n := BlockCount(|x.data|, Chunk(x.szx));
    LastIsBlock(x);
    var before := LosslessPrefix(x, n - 1);
    var w := Run(x, x.Init(), before);
    LastBlockDelivers(x, w, n - 1);
    var e1, e2 := ToServer(x.PutOf(n - 1), _ => 0, 2), ToClient(Resp(2, None));
    OneMore(x, x.Init(), before, e1);
    OneMore(x, x.Init(), before + [e1], e2);
    events := before + [e1] + [e2];
  }

  lemma {:induction false} LastBlockDelivers(x: Setting, w: World, k: nat)
    requires x.Valid() && Reached(x, w, k) && IsBlock(x, k) && k <= MAX_NUM
    requires k + 1 == BlockCount(|x.data|, Chunk(x.szx))
    ensures var w' := Step(x, Step(x, w, ToServer(x.PutOf(k), _ => 0, 2)), ToClient(Resp(2, None)));
            Delivered(x, w') && Ended(x, w')
  {
    InOrderAtServer(x, w, k, _ => 0);
    assert Complete(Prefix(k + 1), k + 1);
    forall j: nat | IsBlock(x, j)
      ensures j < k + 1
    {
      BlockInside(|x.data|, Chunk(x.szx), j);
    }
    assert Read(None) == None;
  }

  lemma {:induction false} LastIsBlock(x: Setting)
    requires x.Valid()
    ensures var n := BlockCount(|x.data|, Chunk(x.szx)); n > 0 && IsBlock(x, n - 1)
  {
    var c := Chunk(x.szx);
    BlockInside(|x.data|, c, 0);
    BlockInside(|x.data|, c, BlockCount(|x.data|, c) - 1);
  }

  // ----- a second body while the entry of the first is kept -----

  /** It answers every block number it has seen with the body it holds, whatever the request carries. */
  lemma {:induction false} FinishedEntryRedelivers(
    x: Setting, r: Receiver, b: Block, size1: nat, payload: seq<byte>, memory: Memory, appCls: nat)
    requires x.Valid() && CompleteEntry(x, r) && b.num in r.part.got && b.szx == x.szx
    ensures OnPut(x.cap, x.single, r, x.fmt, Some(b), size1, payload, memory, appCls) ==
            (r.(done := true), Some(Resp(appCls, None)), WholeBody(x.data, |x.data|))
  {
    var c := Chunk(x.szx);
    ExpectedIsCount(x);
    CompleteBody(r.part.got, r.part.body.value, x.data, c);
    assert r.part.body.value[..|x.data|] == r.part.body.value;
  }

  /** A second body to the same resource in the same way. */
  ghost predicate SameWay(x: Setting, y: Setting)
  {
    x.szx == y.szx && x.fmt == y.fmt && x.cap == y.cap && x.single == y.single
  }

  /** What the handler is given in a run that begins with the entry `r` still there. */
  ghost predicate FaithfulAfter(y: Setting, r: Receiver, events: seq<Event>)
  {
    forall call :: call in Run(y, y.Init().(recv := r), events).calls ==> Faithful(y.data, call)
  }

  /** While the entry of a first body is kept, a second one is delivered faithfully in every run exactly if
      it is the same body. */
  lemma {:induction false} SecondBodyIffSame(x: Setting, y: Setting, r: Receiver)
    requires x.Valid() && y.Valid() && y.NumbersFit() && SameWay(x, y) && CompleteEntry(x, r)
    ensures (forall events :: FaithfulAfter(y, r, events)) <==> x.data == y.data
  {
    if x.data == y.data {
      assert x == y;
      forall events
        ensures FaithfulAfter(y, r, events)
      {
        assert IsBlock(y, 0);
        RunKeepsInv(y, y.Init().(recv := r), events);
      }
    } else {
      var events := FirstBodyInstead(x, y, r);
    }
  }

  /** The first request of the second body is answered with the first body. */
  lemma {:induction false} FirstBodyInstead(x: Setting, y: Setting, r: Receiver) returns (events: seq<Event>)
    requires x.Valid() && y.Valid() && SameWay(x, y) && CompleteEntry(x, r)
    ensures WholeBody(x.data, |x.data|) in Run(y, y.Init().(recv := r), events).calls
    ensures x.data != y.data ==> !FaithfulAfter(y, r, events)
  {
    var w := y.Init().(recv := r);
    var e := ToServer(y.PutOf(0), _ => 0, 2);
    events := [e];
    assert [] + [e] == [e];
    OneMore(y, w, [], e);
    assert IsBlock(y, 0);
    BlockReadable(y, 0, y.PutOf(0).block.m);
    assert 0 in r.part.got by { ZeroIsIn(r.part.got, BlockCount(|x.data|, Chunk(x.szx))); }
    FinishedEntryRedelivers(x, r, y.PutOf(0).block, |y.data|, y.PutOf(0).payload, _ => 0, 2);
    assert !Faithful(y.data, WholeBody(x.data, |x.data|)) || x.data == y.data;
  }

  lemma {:induction false} ZeroIsIn(got: set<nat>, total: nat)
    requires Complete(got, total)
    ensures 0 in got
  {
  }
}
