/** A server sending a large body with Block2: coap_handle_request_send_block (src/block.c:936-1142). */
module Block2Server {
  import opened Common
  import opened VarInt
  import opened BlockOption

  datatype Rep = Rep(etag: nat, data: seq<byte>)

  /** coap_lg_xmit_t for a response: what is sent, the block size and the offset of the block last sent. */
  datatype Server = Server(rep: Rep, szx: nat, offset: nat)

  datatype Reply = ServerError | Content(block: Block, etag: nat, size2: nat, payload: seq<byte>)

  /** A changed size is taken over if the block last sent ends on a boundary of it. */
  predicate Takes(sv: Server, szx: nat)
  {
    szx == sv.szx || (sv.offset + Chunk(sv.szx)) % Chunk(szx) == 0
  }

  /** `rb` is the Block2 option as coap_get_block reads it; without a readable one block 0 is sent. */
  function OnGet(sv: Server, rb: Option<Block>): (Server, Reply)
  {
    var want := Wanted(rb, sv.szx);
    var szx := if Takes(sv, want.szx) then want.szx else sv.szx;
    var c := Chunk(szx);
    var off := want.num * c;
    (Server(sv.rep, szx, off),
     match AddBlock(sv.rep.data, want.num, want.szx)
     case None => ServerError
     case Some(p) => Content(Block(want.num, off + c < |sv.rep.data|, want.szx), sv.rep.etag, |sv.rep.data|, p))
  }

  /** What a request finds: another entry or the handler is tried, 2.03 Valid, or a block. */
  datatype Answer = NotTaken | StillValid | Served(reply: Reply, maxAge: Option<nat>)

  /** What does not change in a transfer besides the body: the ETag as it was stored and the moment, in seconds,
      at which the body goes stale, 0 for never. */
  datatype Kept = Kept(stored: nat, stale: nat)

  /** A request: its ETag, its Block2 option as coap_get_block reads it, and the time in seconds. */
  datatype Get = Get(etag: Option<nat>, block: Option<Block>, now: nat)

  /** The block a request without ETag is for; without a readable option block 0 in the size in use. */
  function Wanted(block: Option<Block>, szx: nat): Block
  {
    if block.Some? then block.value else Block(0, false, szx)
  }

  /** A request with an ETag is about validation alone; it is compared with the ETag that was stored. */
  function OnRequest(sv: Server, k: Kept, g: Get): (Server, Answer)
  {
    if g.etag.None? then
      var (s, reply) := OnGet(sv, g.block);
      (s, Served(reply, if k.stale == 0 then None else Some(if k.stale > g.now then k.stale - g.now else 0)))
    else (sv, if g.etag.value == k.stored then StillValid else NotTaken)
  }

  /** maxage_expire from the application's Max-Age; a negative one stands for none (src/block.c:506-514). */
  function StaleAt(maxAge: int, now: nat): nat { if maxAge >= 0 then now + maxAge else 0 }

  /** Whenever a block is served, it goes stale with all the others, at the moment set by the first; blocks
      served after that are stale at once. */
  lemma {:induction false} StaleTogether(sv: Server, stored: nat, maxAge: int, begun: nat, rb: Option<Block>, now: nat)
    requires now >= begun > 0
    ensures var answer := OnRequest(sv, Kept(stored, StaleAt(maxAge, begun)), Get(None, rb, now)).1;
            if maxAge < 0 then answer.maxAge == None
            else
              && answer.maxAge.Some?
              && now + answer.maxAge.value == if now < begun + maxAge then begun + maxAge else now
  {
  }

  const ETAGS: nat := 0x1_0000_0000_0000_0000 // an ETag is a uint64_t

  /** The ETags of a new transfer: `app` is the application's, 0 for none; then one is made up from the
      context's counter, and 0 is what is stored (src/block.c:505-528). */
  method PickEtag(app: nat, counter: nat) returns (stored: nat, served: nat, counter': nat)
    requires app < ETAGS && counter < ETAGS
    ensures 0 < served < ETAGS && counter' < ETAGS
    ensures app != 0 ==> stored == served == app && counter' == counter
    ensures app == 0 ==> stored == 0 && served == counter' != counter
  {
    stored, served, counter' := app, app, counter;
    if served == 0 {
      counter' := (counter' + 1) % ETAGS;
      if counter' == 0 {
        counter' := (counter' + 1) % ETAGS;
      }
      served := counter';
    }
  }

  /** Validation answers for exactly the ETag that is served if and only if the application gave one: an ETag
      made up by the library never validates, and the value 0 does in its place. */
  method ValidationIffGiven(data: seq<byte>, szx: nat, app: nat, counter: nat) returns (sv: Server, stored: nat)
    requires app < ETAGS && counter < ETAGS
    ensures sv.rep.data == data && 0 < sv.rep.etag < ETAGS
    ensures app != 0 <==> forall e, rb, stale, now ::
              OnRequest(sv, Kept(stored, stale), Get(Some(e), rb, now)).1 == StillValid <==> e == sv.rep.etag
    ensures app == 0 ==> forall rb, stale, now ::
              OnRequest(sv, Kept(stored, stale), Get(Some(sv.rep.etag), rb, now)).1 == NotTaken
  {
    var served, c;
    stored, served, c := PickEtag(app, counter);
    sv := Server(Rep(served, data), szx, 0);
    assert OnRequest(sv, Kept(stored, 0), Get(Some(stored), None, 0)).1 == StillValid;
  }

  class LgXmit {
    const rep: Rep
    const kept: Kept      // b.b2.etag and b.b2.maxage_expire
    var blkSize: nat
    var offset: nat
    var lastUsed: nat

    constructor (rep: Rep, kept: Kept, szx: nat)
      ensures Valid() && State() == Server(rep, szx, 0) && this.kept == kept && lastUsed == 0
    {
      this.rep, this.kept, blkSize, offset, lastUsed := rep, kept, szx, 0, 0;
      NewIsAligned(rep, szx);
    }

    /** The block last sent starts on a boundary of the size in use. */
    ghost predicate Valid()
      reads this
    {
      Aligned(State())
    }

    /** `ticks` is the time in ticks. */
    method HandleRequest(g: Get, ticks: nat) returns (answer: Answer)
      requires Valid()
      modifies this
      ensures Valid()
      ensures (State(), answer) == OnRequest(old(State()), kept, g)
      // with an ETag nothing but that counts and nothing changes
      ensures g.etag.Some? ==> answer == (if g.etag.value == kept.stored then StillValid else NotTaken)
      ensures g.etag.Some? ==> State() == old(State()) && lastUsed == old(lastUsed)
      // without one, the block asked for is served, and its place remembered in the size now in use
      ensures g.etag.None? ==> answer.Served? && offset == Wanted(g.block, old(blkSize)).num * Chunk(blkSize)
      ensures g.etag.None? ==> blkSize in {old(blkSize), Wanted(g.block, old(blkSize)).szx}
      ensures g.etag.None? ==>
                (blkSize == Wanted(g.block, old(blkSize)).szx <==>
                 || Wanted(g.block, old(blkSize)).szx == old(blkSize)
                 || (old(offset) + Chunk(old(blkSize))) % Chunk(Wanted(g.block, old(blkSize)).szx) == 0)
      ensures g.etag.None? && blkSize == Wanted(g.block, old(blkSize)).szx ==>
                answer.reply == Slice(rep, Wanted(g.block, old(blkSize)))
      ensures g.etag.None? && blkSize != Wanted(g.block, old(blkSize)).szx ==>
                answer.reply == WithMore(Slice(rep, g.block.value), offset + Chunk(blkSize) < |rep.data|)
      // it goes stale with the others, and the entry is marked when it is stale or there is no such block
      ensures g.etag.None? ==> (answer.maxAge.None? <==> kept.stale == 0)
      ensures g.etag.None? && kept.stale != 0 ==>
                g.now + answer.maxAge.value == if g.now < kept.stale then kept.stale else g.now
      ensures g.etag.None? ==>
                lastUsed == if (kept.stale != 0 && kept.stale <= g.now) || answer.reply.ServerError?
                            then ticks else old(lastUsed)
    {
      if g.etag.Some? {
        return if g.etag.value == kept.stored then StillValid else NotTaken;
      }
      ServesSlice(State(), Wanted(g.block, blkSize));
      var maxAge := None;
      if kept.stale != 0 {
        var rem := 0;
        if kept.stale > g.now {
          rem := kept.stale - g.now;
        } else {
          lastUsed := ticks;
        }
        maxAge := Some(rem);
      }
      var reply := HandleGet(g.block);
      if reply.ServerError? {
        lastUsed := ticks;
      }
      return Served(reply, maxAge);
    }

    function State(): Server
      reads this
    {
      Server(rep, blkSize, offset)
    }

    method HandleGet(block: Option<Block>) returns (reply: Reply)
      modifies this`blkSize, this`offset
      ensures (State(), reply) == OnGet(old(State()), block)
    {
      var num, szx := 0, blkSize;
      if block.Some? {
        num, szx := block.value.num, block.value.szx;
        var done := offset + Chunk(blkSize);
        if szx != blkSize && done % Chunk(szx) == 0 {
          blkSize := szx;
        }
      }
      var chunk := Chunk(blkSize);
      offset := num * chunk;
      var payload := AddBlock(rep.data, num, szx);
      if payload.None? {
        return ServerError;
      }
      return Content(Block(num, offset + chunk < |rep.data|, szx), rep.etag, |rep.data|, payload.value);
    }
  }

  // ----- serving is slicing -----

  /** The answer that depends on the representation and the request alone. */
  function Slice(rep: Rep, b: Block): Reply
  {
    var off, c := b.num * Chunk(b.szx), Chunk(b.szx);
    if off < |rep.data| then
      Content(Block(b.num, off + c < |rep.data|, b.szx), rep.etag, |rep.data|, Window(rep.data, off, c))
    else ServerError
  }

  /** The same block with another More bit. */
  function WithMore(reply: Reply, m: bool): Reply
  {
    if reply.Content? then reply.(block := reply.block.(m := m)) else reply
  }

  predicate Aligned(sv: Server) { sv.offset % Chunk(sv.szx) == 0 }

  lemma {:induction false} NewIsAligned(rep: Rep, szx: nat)
    ensures Aligned(Server(rep, szx, 0))
  {
    ModUnique(0, 0, 0, Chunk(szx));
  }

  /** The one thing a refused size increase can spoil: More is set although this is the last block. */
  predicate MoreIsWrong(sv: Server, b: Block)
  {
    var len := |sv.rep.data|;
    !Takes(sv, b.szx) && (b.num + 1) * Chunk(sv.szx) < len <= (b.num + 1) * Chunk(b.szx)
  }

  /** In every state, every answer is the slice, and with the right More bit unless the increase to the
      requested size is refused and that size would reach the end where the current one does not. */
  lemma {:induction false} ServesSlice(sv: Server, b: Block)
    requires Aligned(sv)
    ensures var (sv', reply) := OnGet(sv, Some(b));
            && Aligned(sv') && sv'.rep == sv.rep
            && (Takes(sv, b.szx) ==> sv'.szx == b.szx)
            && (reply == Slice(sv.rep, b) <==> !(MoreIsWrong(sv, b) && reply.Content?))
            && (reply.Content? <==> b.num * Chunk(b.szx) < |sv.rep.data|)
            && (reply.Content? ==>
                  var s := Slice(sv.rep, b);
                  reply == WithMore(s, sv'.offset + Chunk(sv'.szx) < |sv.rep.data|) && (s.block.m ==> reply.block.m))
            && sv'.offset == b.num * Chunk(sv'.szx)
  {
    var (sv', reply) := OnGet(sv, Some(b));
    var c := Chunk(sv'.szx);
    ModUnique(b.num * c, b.num, 0, c);
    AddBlockIsWindow(sv.rep.data, b.num, b.szx);
    assert (b.num + 1) * c == b.num * c + c;
    assert (b.num + 1) * Chunk(b.szx) == b.num * Chunk(b.szx) + Chunk(b.szx);
    if !Takes(sv, b.szx) {
      SmallerIsTaken(sv, b.szx);
      ChunkScale(sv.szx, b.szx);
      MulMonotone(Chunk(sv.szx), Chunk(b.szx), b.num + 1);
    }
  }

  /** A size that does not grow is never refused. */
  lemma {:induction false} SmallerIsTaken(sv: Server, szx: nat)
    requires Aligned(sv)
    ensures szx <= sv.szx ==> Takes(sv, szx)
  {
    if szx <= sv.szx {
      var c, k := Chunk(szx), Pow2(sv.szx - szx);
      ChunkScale(szx, sv.szx);
      var q := sv.offset / Chunk(sv.szx);
      assert sv.offset == q * Chunk(sv.szx);
      var done := sv.offset + Chunk(sv.szx);
      assert done == (q + 1) * Chunk(sv.szx);
      MulAssoc(q + 1, k, c);
      ModUnique(done, (q + 1) * k, 0, c);
    }
  }

  /** A refused increase does send a wrong More bit: 16-byte blocks, the last request for a 32-byte one. */
  lemma {:induction false} RefusedIncreaseMisleads(rep: Rep)
    requires 16 < |rep.data| <= 32
    ensures var sv := Server(rep, 0, 0);
            && Aligned(sv) && OnGet(sv, Some(Block(0, false, 1))).1 != Slice(rep, Block(0, false, 1))
            && OnGet(sv, Some(Block(0, false, 1))).1.block.m
  {
    assert Pow2(4) == 16;
    assert Chunk(0) == 16;
    assert Chunk(1) == 32;
    AddBlockIsWindow(rep.data, 0, 1);
  }

  // ----- whole runs -----

  function ServeAll(sv: Server, k: Kept, requests: seq<Get>): Server
    decreases |requests|
  {
    if requests == [] then sv else ServeAll(OnRequest(sv, k, requests[0]).0, k, requests[1..])
  }

  /** The requested sizes never grow, starting from `szx`; requests with an ETag ask for none. */
  predicate NeverGrows(szx: nat, requests: seq<Get>)
    decreases |requests|
  {
    requests == [] ||
    if requests[0].etag.Some? || requests[0].block.None? then NeverGrows(szx, requests[1..])
    else requests[0].block.value.szx <= szx && NeverGrows(requests[0].block.value.szx, requests[1..])
  }

  /** After any requests whose size never grew, the answer to the next one is the slice of the
      representation: it does not depend on what was asked before. */
  lemma {:induction false} ServingIsSlicing(sv: Server, k: Kept, requests: seq<Get>, b: Block, now: nat)
    requires Aligned(sv) && NeverGrows(sv.szx, requests + [Get(None, Some(b), now)])
    ensures var answer := OnRequest(ServeAll(sv, k, requests), k, Get(None, Some(b), now)).1;
            answer.Served? && answer.reply == Slice(sv.rep, b)
    decreases |requests|
  {
    var all := requests + [Get(None, Some(b), now)];
    if requests == [] {
      assert all[0] == Get(None, Some(b), now);
      SmallerIsTaken(sv, b.szx);
      ServesSlice(sv, b);
    } else {
      var g := requests[0];
      assert all[0] == g && all[1..] == requests[1..] + [Get(None, Some(b), now)];
      var want := Wanted(g.block, sv.szx);
      SmallerIsTaken(sv, want.szx);
      ServesSlice(sv, want);
      ServingIsSlicing(OnRequest(sv, k, g).0, k, requests[1..], b, now);
    }
  }
}
