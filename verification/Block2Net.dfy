/** A Block2 transfer end to end: the client asks for one block at a time with a fresh token, the server's
    representation may be replaced at any moment, and the network loses, repeats and reorders. */
module Block2Net {
  import opened Common
  import opened BlockOption
  import opened RecBlocks
  import opened Reassembly
  import opened Block2Server
  import opened Block2Client

  datatype Msg = Msg(token: nat, rsp: Rsp)

  /** Requests by token and every response ever sent; each may arrive any number of times, or never.
      `counter` is the session's token counter, `served` the ETags the server has had so far, `kept` what its
      current transfer stores besides the body. */
  datatype World = World(
    client: Client, server: Server, kept: Kept, reqs: map<nat, Option<Block>>, msgs: set<Msg>, calls: set<Call>,
    counter: nat, served: set<nat>)

  datatype Event =
    | Serve(token: nat, now: nat)                 // the request arrives at the server
    | Deliver(msg: Msg, memory: Memory)           // a response arrives at the client
    | Replace(etag: nat, szx: nat, kept: Kept)    // another representation takes the place of the current one

  /** The representation behind each ETag, their common format, the client's COAP_RBLOCK_CNT and whether its
      session starts in single-body mode. */
  datatype Setting = Setting(store: nat -> seq<byte>, fmt: nat, cap: nat, single: bool) {
    ghost predicate Valid()
    {
      cap >= 2 && forall e :: |store(e)| <= MAX_BLK_LEN
    }

    function Fresh(etag: nat, szx: nat): Server { Server(Rep(etag, store(etag)), szx, 0) }

    /** The first request (with or without an option for block 0) has been sent with token 0. */
    function Init(server: Server, kept: Kept, first: Option<Block>): World
    {
      World(Client(true, false, None, 0, Partial({}, None), 0, 0, single), server, kept, map[0 := first], {}, {}, 1,
            {server.rep.etag})
    }

    /** Block `k` of representation `e` as the application gets it when bodies are not put together. */
    function PieceOf(e: nat, k: nat, szx: nat): Call
    {
      var c := Chunk(szx);
      Piece(k * c, Window(store(e), k * c, c), |store(e)|)
    }

    function Response(reply: Reply): Rsp
    {
      match reply
      case ServerError => Rsp(5, None, 0, None, 0, [])
      case Content(b, etag, size2, payload) => Rsp(2, Some(b), size2, Some(etag), fmt, payload)
    }
  }

  ghost function Step(x: Setting, w: World, e: Event): World
  {
    match e
    case Serve(t, now) =>
      if t !in w.reqs then w
      else
        var (sv, answer) := OnRequest(w.server, w.kept, Get(None, Read(w.reqs[t]), now));
        if answer.Served? then w.(server := sv, msgs := w.msgs + {Msg(t, x.Response(answer.reply))})
        else w.(server := sv)
    case Deliver(m, memory) =>
      if m !in w.msgs || m.token != w.client.token then w
      else
        var (cl, req, call) := OnContent(x.cap, w.client, m.rsp, Read(m.rsp.block), w.counter, memory);
        w.(client := cl, reqs := if req.Some? then w.reqs[req.value.token := req.value.block] else w.reqs,
           calls := w.calls + (if call.Some? then {call.value} else {}), counter := w.counter + 1)
    case Replace(etag, szx, kept) =>
      if szx < 8 then w.(server := x.Fresh(etag, szx), kept := kept, served := w.served + {etag}) else w
  }

  ghost function Run(x: Setting, w: World, events: seq<Event>): World
    decreases |events|
  {
    if events == [] then w else Step(x, Run(x, w, events[..|events| - 1]), events[|events| - 1])
  }

  // ----- what the application may be given -----

  ghost predicate IsWhole(body: seq<byte>, length: nat, data: seq<byte>)
  {
    length == |data| <= |body| && body[..length] == data
  }

  /** A single body is one of the server's representations, all of it; a piece is cut from one of them and its
      total is the length of that one (or one more, if the server set More on a last block). */
  ghost predicate Faithful(x: Setting, served: set<nat>, call: Call)
  {
    match call
    case Body(body, length) => body.Some? && exists e :: e in served && IsWhole(body.value, length, x.store(e))
    case Piece(offset, payload, total) =>
      exists e, n :: e in served && payload == Window(x.store(e), offset, n) && total - |x.store(e)| in {0, 1}
    case Raw(_) => true
  }

  // ----- the invariant -----

  ghost predicate ZeroReq(b: Option<Block>) { b.Some? ==> b.value.num == 0 }

  ghost predicate GoodReqs(reqs: map<nat, Option<Block>>, counter: nat)
  {
    forall t :: t in reqs ==>
      t < counter && (reqs[t].Some? ==> reqs[t].value.num < 0x1000_0000 && reqs[t].value.szx < 8)
  }

  /** A block of representation `e` with its true length and ETag. */
  ghost predicate Honest(x: Setting, r: Rsp, e: nat, b: Block)
  {
    var c := Chunk(b.szx);
    && r.block == Some(b) && r.etag == Some(e) && r.size2 == |x.store(e)| && r.fmt == x.fmt
    && b.szx < 8 && b.num <= MAX_NUM && b.num * c < |x.store(e)|
    && r.payload == Window(x.store(e), b.num * c, c)
    && (b.num * c + c < |x.store(e)| ==> b.m)
  }

  /** ... that answers the request it belongs to; an unreadable request gets block 0. */
  ghost predicate Answers(x: Setting, served: set<nat>, r: Rsp, req: Option<Block>)
  {
    r.cls == 2 ==>
      && r.block.Some? && r.etag.Some? && r.etag.value in served && Honest(x, r, r.etag.value, r.block.value)
      && (if Read(req).Some? then r.block.value.num == req.value.num && r.block.value.szx == req.value.szx
          else r.block.value.num == 0)
  }

  /** The first `k` blocks of `data` are recorded and, in single-body mode, in the buffer. */
  ghost predicate HasPrefix(single: bool, p: Partial, data: seq<byte>, c: nat, k: nat)
  {
    && p.got == Prefix(k) && (k > 0 ==> k * c < |data|)
    && (single && k > 0 ==> p.body.Some? && k * c <= |p.body.value| && p.body.value[..k * c] == data[..k * c])
  }

  ghost predicate GoodClient(x: Setting, served: set<nat>, cl: Client, reqs: map<nat, Option<Block>>)
  {
    && cl.single == x.single && cl.token in reqs && cl.base in reqs && ZeroReq(reqs[cl.base])
    && (if cl.initial then ZeroReq(reqs[cl.token])
        else
          && cl.etag.Some? && cl.etag.value in served && cl.etagSet && cl.fmt == x.fmt && reqs[cl.token].Some?
          && var b := reqs[cl.token].value;
             b.num > 0 && HasPrefix(x.single, cl.part, x.store(cl.etag.value), Chunk(b.szx), b.num))
  }

  ghost predicate GoodServer(x: Setting, served: set<nat>, sv: Server)
  {
    Aligned(sv) && sv.szx < 8 && sv.rep.etag in served && sv.rep.data == x.store(sv.rep.etag)
  }

  ghost predicate Inv(x: Setting, w: World)
  {
    && GoodServer(x, w.served, w.server) && GoodReqs(w.reqs, w.counter) && GoodClient(x, w.served, w.client, w.reqs)
    && (forall m :: m in w.msgs ==> m.token in w.reqs && Answers(x, w.served, m.rsp, w.reqs[m.token]))
    && (forall call :: call in w.calls ==> Faithful(x, w.served, call))
  }

  /** What the server answers is honest. */
  lemma {:induction false} ServerAnswers(
    x: Setting, served: set<nat>, sv: Server, k: Kept, req: Option<Block>, now: nat)
    requires x.Valid() && GoodServer(x, served, sv)
    requires req.Some? ==> req.value.num < 0x1000_0000 && req.value.szx < 8
    ensures var (sv', answer) := OnRequest(sv, k, Get(None, Read(req), now));
            && answer.Served? && GoodServer(x, served, sv')
            && Answers(x, served, x.Response(answer.reply), req)
  {
    if req.Some? { OptionRoundTrip(req.value); }
    var want := Wanted(Read(req), sv.szx);
    assert OnGet(sv, Read(req)) == OnGet(sv, Some(want));
    ServesSlice(sv, want);
  }

  /** Writing the next block in order leaves the buffer correct up to the end of that block. */
  lemma {:induction false} NextBody(p: Partial, data: seq<byte>, c: nat, k: nat, memory: Memory)
    returns (body: seq<byte>)
    requires c > 0 && k * c < |data| && HasPrefix(true, p, data, c, k)
    ensures BuildBody(p.body, Window(data, k * c, c), k * c, |data|, memory) == Some(body)
    ensures k * c + c < |data| ==> HasPrefix(true, Partial(p.got + {k}, Some(body)), data, c, k + 1)
    ensures k * c + c >= |data| ==> |body| >= |data| && body[..|data|] == data
  {
    assert k > 0 || k * c == 0;
    InOrderStep(p.body, data, k * c, c, |data|, memory);
    NextIsAccepted(k, 2);
    MulSucc(k, c);
    body := BuildBody(p.body, Window(data, k * c, c), k * c, |data|, memory).value;
    Upto(body, data, k * c + c);
  }

  lemma {:induction false} Upto(body: seq<byte>, data: seq<byte>, end: nat)
    requires var u := Min(end, |data|); |body| >= u && body[..u] == data[..u]
    ensures end < |data| ==> |body| >= end && body[..end] == data[..end]
    ensures end >= |data| ==> |body| >= |data| && body[..|data|] == data
  {
    assert data[..|data|] == data;
  }

  /** With blocks 0..k recorded the client asks for block k + 1 or, after the last one, delivers. */
  lemma {:induction false} AfterNext(q: Client, r: Rsp, b: Block, len: nat, newToken: nat)
    requires q.part.got == Prefix(b.num + 1)
    requires Size(r, b) == len && b.num * Chunk(b.szx) < len && (b.num * Chunk(b.szx) + Chunk(b.szx) < len ==> b.m)
    ensures AfterRecording(q, r, b, newToken) ==
            var piece := Piece(b.num * Chunk(b.szx), r.payload, len);
            if b.num * Chunk(b.szx) + Chunk(b.szx) < len
            then (q.(token := newToken), Some(Req(newToken, Some(Block(b.num + 1, false, b.szx)))),
                  if q.single then None else Some(piece))
            else (q.(initial := true, token := q.base, part := q.part.(body := None)), None,
                  Some(if q.single then Body(q.part.body, b.num * Chunk(b.szx) + |r.payload|) else piece))
  {
    var c, k := Chunk(b.szx), b.num;
    assert (k + 1) * c == k * c + c;
    BlockInside(len, c, k);
    BlockInside(len, c, k + 1);
    var n := BlockCount(len, c);
    if k * c + c < len {
      NotYetComplete(k + 1, n);
    } else {
      assert Complete(Prefix(k + 1), n);
    }
  }

  /** What the next block in order does to the client: it asks for the one after it or, at the end, is ready for
      the next body. The application gets each block as it comes, or all of them at the end. */
  ghost predicate Advances(x: Setting, p: Client, o: Outcome, e: nat, b: Block, newToken: nat)
  {
    var c, (q, req, call) := Chunk(b.szx), o;
    && (if b.num * c + c < |x.store(e)|
        then && req == Some(Req(newToken, Some(Block(b.num + 1, false, b.szx))))
             && q == p.(token := newToken, part := q.part) && HasPrefix(x.single, q.part, x.store(e), c, b.num + 1)
        else req == None && q == p.(token := p.base, initial := true, part := q.part))
    && (if !x.single then call == Some(x.PieceOf(e, b.num, b.szx))
        else if b.num * c + c < |x.store(e)| then call == None
        else && call.Some? && call.value.Body? && call.value.body.Some?
             && IsWhole(call.value.body.value, call.value.length, x.store(e)))
  }

  lemma {:induction false} NextBlock(x: Setting, p: Client, r: Rsp, e: nat, b: Block, newToken: nat, memory: Memory)
    requires p.single == x.single && Honest(x, r, e, b)
    requires HasPrefix(x.single, p.part, x.store(e), Chunk(b.szx), b.num)
    ensures Advances(x, p, OnNewBlock(p.(part := p.part.(got := p.part.got + {b.num})), r, b, newToken, memory),
                     e, b, newToken)
  {
    NextIsAccepted(b.num, 2);
    assert Size(r, b) == |x.store(e)|;
    if x.single {
      NextOfBody(x, p, r, e, b, newToken, memory);
    } else {
      NextPiece(x, p, r, e, b, newToken, memory);
    }
  }

  lemma {:induction false} NextOfBody(x: Setting, p: Client, r: Rsp, e: nat, b: Block, newToken: nat, memory: Memory)
    requires p.single && x.single && Honest(x, r, e, b) && Size(r, b) == |x.store(e)|
    requires p.part.got + {b.num} == Prefix(b.num + 1) && HasPrefix(true, p.part, x.store(e), Chunk(b.szx), b.num)
    ensures Advances(x, p, OnNewBlock(p.(part := p.part.(got := p.part.got + {b.num})), r, b, newToken, memory),
                     e, b, newToken)
  {
    var body := NextBody(p.part, x.store(e), Chunk(b.szx), b.num, memory);
    BodyReady(x, p, body, r, e, b, newToken);
    Unfolded(p, r, b, newToken, memory, body);
  }

  lemma {:induction false} NextPiece(x: Setting, p: Client, r: Rsp, e: nat, b: Block, newToken: nat, memory: Memory)
    requires !p.single && !x.single && Honest(x, r, e, b) && Size(r, b) == |x.store(e)|
    requires p.part.got + {b.num} == Prefix(b.num + 1)
    ensures Advances(x, p, OnNewBlock(p.(part := p.part.(got := p.part.got + {b.num})), r, b, newToken, memory),
                     e, b, newToken)
  {
    var q := p.(part := p.part.(got := p.part.got + {b.num}));
    MulSucc(b.num, Chunk(b.szx));
    AfterNext(q, r, b, |x.store(e)|, newToken);
    assert OnNewBlock(q, r, b, newToken, memory) == AfterRecording(q, r, b, newToken);
  }

  lemma {:induction false} Unfolded(p: Client, r: Rsp, b: Block, newToken: nat, memory: Memory, body: seq<byte>)
    requires p.single && BuildBody(p.part.body, r.payload, b.num * Chunk(b.szx), Size(r, b), memory) == Some(body)
    ensures OnNewBlock(p.(part := p.part.(got := p.part.got + {b.num})), r, b, newToken, memory) ==
            AfterRecording(p.(part := Partial(p.part.got + {b.num}, Some(body))), r, b, newToken)
  {
  }

  lemma {:induction false} BodyReady(x: Setting, p: Client, body: seq<byte>, r: Rsp, e: nat, b: Block, newToken: nat)
    requires x.single && p.single && Honest(x, r, e, b) && Size(r, b) == |x.store(e)|
    requires var data, c, k := x.store(e), Chunk(b.szx), b.num;
             && p.part.got + {k} == Prefix(k + 1)
             && (k * c + c < |data| ==> HasPrefix(true, Partial(p.part.got + {k}, Some(body)), data, c, k + 1))
             && (k * c + c >= |data| ==> |body| >= |data| && body[..|data|] == data)
    ensures Advances(x, p, AfterRecording(p.(part := Partial(p.part.got + {b.num}, Some(body))), r, b, newToken),
                     e, b, newToken)
  {
    AfterNext(p.(part := Partial(p.part.got + {b.num}, Some(body))), r, b, |x.store(e)|, newToken);
  }

  /** After the outcome of a response the client still agrees with its requests. */
  ghost predicate GoodOutcome(x: Setting, w: World, o: Outcome)
  {
    var (cl, req, call) := o;
    var reqs := if req.Some? then w.reqs[req.value.token := req.value.block] else w.reqs;
    && (req.Some? ==> req.value.token == w.counter)
    && GoodReqs(reqs, w.counter + 1) && GoodClient(x, w.served, cl, reqs)
    && (call.Some? ==> Faithful(x, w.served, call.value))
  }

  ghost predicate Good(x: Setting, w: World)
  {
    GoodReqs(w.reqs, w.counter) && GoodClient(x, w.served, w.client, w.reqs)
  }

  lemma {:induction false} ClientStep(x: Setting, w: World, r: Rsp, memory: Memory)
    requires x.Valid() && Good(x, w) && r.cls == 2 && Answers(x, w.served, r, w.reqs[w.client.token])
    ensures GoodOutcome(x, w, OnContent(x.cap, w.client, r, r.block, w.counter, memory))
  {
    var b, e, cl := r.block.value, r.etag.value, w.client;
    var p := Begin(cl, r);
    if p.etag == Some(e) && b.num !in p.part.got {
      var req := w.reqs[cl.token];
      if req.Some? { OptionRoundTrip(req.value); }
      Expected(x, w.served, cl, r, req);
      TakenStep(x, w, r, e, b, memory);
    } else if p.etag == Some(e) {
      PieceIsFaithful(x, w.served, p, r, e, b);
    }
  }

  lemma {:induction false} TakenStep(x: Setting, w: World, r: Rsp, e: nat, b: Block, memory: Memory)
    requires x.Valid() && Good(x, w) && r.cls == 2 && e in w.served && Honest(x, r, e, b)
    requires Begin(w.client, r).etag == Some(e) && b.num !in Begin(w.client, r).part.got
    requires HasPrefix(x.single, Begin(w.client, r).part, x.store(e), Chunk(b.szx), b.num)
    ensures GoodOutcome(x, w, OnContent(x.cap, w.client, r, Some(b), w.counter, memory))
  {
    var p := Begin(w.client, r);
    NextIsAccepted(b.num, x.cap);
    NextBlock(x, p, r, e, b, w.counter, memory);
    SmallNumber(b.num, Chunk(b.szx));
    AdvanceIsGood(x, w, r, OnContent(x.cap, w.client, r, Some(b), w.counter, memory), e, b);
  }

  lemma {:induction false} PieceIsFaithful(x: Setting, served: set<nat>, p: Client, r: Rsp, e: nat, b: Block)
    requires e in served && Honest(x, r, e, b)
    ensures Faithful(x, served, BlockMode(p, r, b).2.value)
  {
    var off, c := b.num * Chunk(b.szx), Chunk(b.szx);
    var total := BlockMode(p, r, b).2.value.total;
    WindowLength(x.store(e), off, c);
    assert total == if b.m && off + |r.payload| == |x.store(e)| then |x.store(e)| + 1 else |x.store(e)|;
    assert r.payload == Window(x.store(e), off, c);
  }

  lemma {:induction false} WindowLength(data: seq<byte>, off: nat, c: nat)
    requires off < |data|
    ensures off + |Window(data, off, c)| == Min(off + c, |data|)
  {
  }

  lemma {:induction false} AdvanceIsGood(x: Setting, w: World, r: Rsp, o: Outcome, e: nat, b: Block)
    requires Good(x, w) && e in w.served && r.etag == Some(e) && r.fmt == x.fmt && b.szx < 8 && b.num + 1 < 0x1000_0000
    requires Begin(w.client, r).etag == Some(e) && Advances(x, Begin(w.client, r), o, e, b, w.counter)
    ensures GoodOutcome(x, w, o)
  {
    if !x.single { assert Faithful(x, w.served, x.PieceOf(e, b.num, b.szx)); }
  }

  /** A block that is not recorded yet is the one after the prefix the client has. */
  lemma {:induction false} Expected(x: Setting, served: set<nat>, cl: Client, r: Rsp, req: Option<Block>)
    requires GoodClient(x, served, cl, map[cl.token := req, cl.base := if cl.base == cl.token then req else None])
    requires r.cls == 2 && Answers(x, served, r, req) && (req.Some? && req.value.num > MAX_NUM ==> Read(req).None?)
    requires req.Some? && req.value.num <= MAX_NUM ==> Read(req) == req
    requires Begin(cl, r).etag == r.etag && r.block.value.num !in Begin(cl, r).part.got
    ensures var b := r.block.value;
            HasPrefix(x.single, Begin(cl, r).part, x.store(r.etag.value), Chunk(b.szx), b.num)
  {
    if cl.initial {
      assert Begin(cl, r).part.got == Prefix(0);
    } else {
      assert 0 in Prefix(req.value.num);
    }
  }

  lemma {:induction false} DeliverKeepsInv(x: Setting, w: World, m: Msg, memory: Memory)
    requires x.Valid() && Inv(x, w) && m in w.msgs && m.token == w.client.token
    ensures Inv(x, Step(x, w, Deliver(m, memory)))
  {
    if m.rsp.cls == 2 {
      OptionRoundTrip(m.rsp.block.value);
      ClientStep(x, w, m.rsp, memory);
    }
    assert w.counter !in w.reqs;
  }

  lemma {:induction false} ServeKeepsInv(x: Setting, w: World, t: nat, now: nat)
    requires x.Valid() && Inv(x, w) && t in w.reqs
    ensures Inv(x, Step(x, w, Serve(t, now)))
  {
    ServerAnswers(x, w.served, w.server, w.kept, w.reqs[t], now);
    var (sv, answer) := OnRequest(w.server, w.kept, Get(None, Read(w.reqs[t]), now));
    var m := Msg(t, x.Response(answer.reply));
    var w' := Step(x, w, Serve(t, now));
    assert w' == w.(server := sv, msgs := w.msgs + {m});
    assert forall n :: n in w'.msgs ==> n in w.msgs || n == m;
  }

  lemma {:induction false} ReplaceKeepsInv(x: Setting, w: World, etag: nat, szx: nat, kept: Kept)
    requires Inv(x, w) && szx < 8
    ensures Inv(x, Step(x, w, Replace(etag, szx, kept)))
  {
    NewIsAligned(Rep(etag, x.store(etag)), szx);
    assert GoodServer(x, w.served + {etag}, x.Fresh(etag, szx));
  }

  lemma {:induction false} StepKeepsInv(x: Setting, w: World, e: Event)
    requires x.Valid() && Inv(x, w)
    ensures Inv(x, Step(x, w, e))
  {
    match e
    case Serve(t, now) =>
      if t in w.reqs {
        ServeKeepsInv(x, w, t, now);
      } else {
        assert Step(x, w, e) == w;
      }
    case Deliver(m, memory) =>
      if m in w.msgs && m.token == w.client.token {
        DeliverKeepsInv(x, w, m, memory);
      } else {
        assert Step(x, w, e) == w;
      }
    case Replace(etag, szx, kept) =>
      if szx < 8 {
        ReplaceKeepsInv(x, w, etag, szx, kept);
      } else {
        assert Step(x, w, e) == w;
      }
  }

  lemma {:induction false} RunKeepsInv(x: Setting, w: World, events: seq<Event>)
    requires x.Valid() && Inv(x, w)
    ensures Inv(x, Run(x, w, events))
    decreases |events|
  {
    if events != [] {
      RunKeepsInv(x, w, events[..|events| - 1]);
      StepKeepsInv(x, Run(x, w, events[..|events| - 1]), events[|events| - 1]);
    }
  }

  /** Under every loss, repetition, reordering and replacement, a single body handed to the application is
      one of the server's representations in full, and a piece is cut from one of them where it says: blocks of
      two are never combined. */
  lemma {:induction false} EndToEnd(
    x: Setting, etag: nat, szx: nat, kept: Kept, first: Option<Block>, events: seq<Event>)
    requires x.Valid() && szx < 8 && ZeroReq(first) && (first.Some? ==> first.value.szx < 8)
    ensures var w := Run(x, x.Init(x.Fresh(etag, szx), kept, first), events);
            forall call :: call in w.calls ==> Faithful(x, w.served, call)
  {
    NewIsAligned(Rep(etag, x.store(etag)), szx);
    RunKeepsInv(x, x.Init(x.Fresh(etag, szx), kept, first), events);
  }

  // ----- the run without losses -----

  /** Blocks 0..k-1 of representation `e` are in and block `k` has been requested. */
  ghost predicate Fetching(x: Setting, w: World, e: nat, szx: nat, k: nat)
  {
    && Inv(x, w) && w.server.rep.etag == e && w.server.szx == szx
    && (if k == 0 then w.client.initial && w.reqs[w.client.token] == None
        else !w.client.initial && w.client.etag == Some(e) && w.reqs[w.client.token] == Some(Block(k, false, szx)))
    && HandedOn(x, w, e, szx, k)
  }

  /** In block-by-block mode the application has been given the first `k` blocks. */
  ghost predicate HandedOn(x: Setting, w: World, e: nat, szx: nat, k: nat)
  {
    !x.single ==> forall j: nat :: j < k ==> x.PieceOf(e, j, szx) in w.calls
  }

  /** The application has been given everything: the body, or each of its blocks. */
  ghost predicate Delivered(x: Setting, w: World, e: nat, szx: nat)
  {
    if x.single then exists body :: Body(Some(body), |x.store(e)|) in w.calls && IsWhole(body, |x.store(e)|, x.store(e))
    else forall j: nat :: j * Chunk(szx) < |x.store(e)| ==> x.PieceOf(e, j, szx) in w.calls
  }

  /** The answer to the current request of a fetch in order. */
  ghost function Answer(x: Setting, w: World): Msg
    requires w.client.token in w.reqs
  {
    var g := Get(None, Read(w.reqs[w.client.token]), 0);
    Msg(w.client.token, x.Response(OnRequest(w.server, w.kept, g).1.reply))
  }

  lemma {:induction false} ServeNext(x: Setting, w: World, e: nat, szx: nat, k: nat)
    requires x.Valid() && Fetching(x, w, e, szx, k) && k <= MAX_NUM && k * Chunk(szx) < |x.store(e)|
    ensures var w' := Step(x, w, Serve(w.client.token, 0));
            && Fetching(x, w', e, szx, k) && Answer(x, w) in w'.msgs && w'.client == w.client && w'.reqs == w.reqs
            && Answer(x, w).rsp.cls == 2 && Answer(x, w).rsp.etag == Some(e)
            && Answer(x, w).rsp.block == Some(Block(k, k * Chunk(szx) + Chunk(szx) < |x.store(e)|, szx))
  {
    var req := w.reqs[w.client.token];
    if req.Some? { OptionRoundTrip(req.value); }
    var want := Wanted(Read(req), szx);
    assert OnGet(w.server, Read(req)) == OnGet(w.server, Some(want));
    ServesSlice(w.server, want);
    ServeKeepsInv(x, w, w.client.token, 0);
  }

  lemma {:induction false} DeliverNext(x: Setting, w: World, m: Msg, e: nat, szx: nat, k: nat, memory: Memory)
    requires x.Valid() && Fetching(x, w, e, szx, k) && m in w.msgs && m.token == w.client.token
    requires k <= MAX_NUM && k * Chunk(szx) < |x.store(e)| && m.rsp.cls == 2 && m.rsp.etag == Some(e)
    requires m.rsp.block == Some(Block(k, k * Chunk(szx) + Chunk(szx) < |x.store(e)|, szx))
    ensures var w' := Step(x, w, Deliver(m, memory));
            if k * Chunk(szx) + Chunk(szx) < |x.store(e)| then Fetching(x, w', e, szx, k + 1)
            else Delivered(x, w', e, szx)
  {
    var b, r := m.rsp.block.value, m.rsp;
    assert Answers(x, w.served, r, w.reqs[m.token]);
    OptionRoundTrip(b);
    OutcomeNext(x, w, r, e, b, memory);
    DeliverKeepsInv(x, w, m, memory);
    var o := OnContent(x.cap, w.client, r, Some(b), w.counter, memory);
    var w' := Step(x, w, Deliver(m, memory));
    assert w'.client == o.0 && w'.server == w.server && (o.2.Some? ==> w'.calls == w.calls + {o.2.value});
    if !x.single {
      MorePieces(x, w, w', e, szx, k);
    } else if k * Chunk(szx) + Chunk(szx) >= |x.store(e)| {
      assert Body(o.2.value.body, o.2.value.length) in w'.calls;
    }
  }

  lemma {:induction false} MorePieces(x: Setting, w: World, w': World, e: nat, szx: nat, k: nat)
    requires !x.single && HandedOn(x, w, e, szx, k) && w'.calls == w.calls + {x.PieceOf(e, k, szx)}
    ensures HandedOn(x, w', e, szx, k + 1)
    ensures k * Chunk(szx) + Chunk(szx) >= |x.store(e)| ==> Delivered(x, w', e, szx)
  {
    if k * Chunk(szx) + Chunk(szx) >= |x.store(e)| {
      NoLater(|x.store(e)|, Chunk(szx), k);
    }
  }

  /** Block `k` is the last one that starts inside the body. */
  lemma {:induction false} NoLater(len: nat, c: nat, k: nat)
    requires k * c + c >= len
    ensures forall j: nat :: j * c < len ==> j <= k
  {
    forall j: nat | j * c < len
      ensures j <= k
    {
      if j > k { MulMonotone(k, j, c); }
    }
  }

  lemma {:induction false} OutcomeNext(x: Setting, w: World, r: Rsp, e: nat, b: Block, memory: Memory)
    requires x.Valid() && Fetching(x, w, e, b.szx, b.num) && r.cls == 2 && Honest(x, r, e, b)
    ensures Advances(x, Begin(w.client, r), OnContent(x.cap, w.client, r, Some(b), w.counter, memory), e, b, w.counter)
  {
    var p := Begin(w.client, r);
    if b.num == 0 { assert p.part.got == Prefix(0); }
    NextIsAccepted(b.num, x.cap);
    NextBlock(x, p, r, e, b, w.counter, memory);
  }

  ghost function Start(x: Setting, e: nat, szx: nat, kept: Kept): World { x.Init(x.Fresh(e, szx), kept, None) }

  lemma {:induction false} FetchPrefix(x: Setting, e: nat, szx: nat, kept: Kept, k: nat) returns (events: seq<Event>)
    requires x.Valid() && szx < 8 && k <= MAX_NUM && k * Chunk(szx) < |x.store(e)|
    ensures Fetching(x, Run(x, Start(x, e, szx, kept), events), e, szx, k)
  {
    if k == 0 {
      NewIsAligned(Rep(e, x.store(e)), szx);
      events := [];
    } else {
      MulSucc(k - 1, Chunk(szx));
      var before := FetchPrefix(x, e, szx, kept, k - 1);
      events := FetchOne(x, Start(x, e, szx, kept), before, e, szx, k - 1);
    }
  }

  lemma {:induction false} FetchOne(x: Setting, w0: World, before: seq<Event>, e: nat, szx: nat, k: nat)
    returns (events: seq<Event>)
    requires x.Valid() && Fetching(x, Run(x, w0, before), e, szx, k)
    requires k <= MAX_NUM && k * Chunk(szx) < |x.store(e)|
    ensures var w := Run(x, w0, events);
            if k * Chunk(szx) + Chunk(szx) < |x.store(e)| then Fetching(x, w, e, szx, k + 1)
            else Delivered(x, w, e, szx)
  {
    var w := Run(x, w0, before);
    var e1 := Serve(w.client.token, 0);
    ServeNext(x, w, e, szx, k);
    var e2 := Deliver(Answer(x, w), _ => 0);
    OneMore(x, w0, before, e1);
    DeliverNext(x, Run(x, w0, before + [e1]), Answer(x, w), e, szx, k, _ => 0);
    OneMore(x, w0, before + [e1], e2);
    events := before + [e1] + [e2];
  }

  lemma {:induction false} OneMore(x: Setting, w: World, before: seq<Event>, e: Event)
    ensures Run(x, w, before + [e]) == Step(x, Run(x, w, before), e)
  {
    assert (before + [e])[..|before|] == before;
  }

  /** Without losses the application does get the whole representation, in one piece or block by block at the
      true offsets, for every size and length whose block numbers fit the option. */
  lemma {:induction false} LosslessDelivers(x: Setting, e: nat, szx: nat, kept: Kept) returns (events: seq<Event>)
    requires x.Valid() && szx < 8 && 0 < BlockCount(|x.store(e)|, Chunk(szx)) <= MAX_NUM + 1
    ensures Delivered(x, Run(x, Start(x, e, szx, kept), events), e, szx)
  {
    var c := Chunk(szx);
    var n := BlockCount(|x.store(e)|, c);
    BlockInside(|x.store(e)|, c, n - 1);
    BlockInside(|x.store(e)|, c, n);
    MulSucc(n - 1, c);
    var before := FetchPrefix(x, e, szx, kept, n - 1);
    events := FetchOne(x, Start(x, e, szx, kept), before, e, szx, n - 1);
  }
}
