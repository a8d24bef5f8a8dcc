/** A client fetching a large body with Block2: coap_handle_response_get_block (src/block.c:1596-1888). */
module Block2Client {
  import opened Common
  import opened BlockOption
  import opened RecBlocks
  import opened Reassembly

  /** coap_lg_crcv_t and the session's single-body flag. Tokens come from a counter. */
  datatype Client = Client(
    initial: bool, etagSet: bool, etag: Option<nat>, fmt: nat, part: Partial, token: nat, base: nat, single: bool)

  /** A response whose token is the client's. `size2` is 0 when the option is absent. */
  datatype Rsp = Rsp(cls: nat, block: Option<Block>, size2: nat, etag: Option<nat>, fmt: nat, payload: seq<byte>)

  /** A request for one block; the first request of all may come without the option. */
  datatype Req = Req(token: nat, block: Option<Block>)

  /** What the application is given. */
  datatype Call =
    | Body(body: Option<seq<byte>>, length: nat)               // a single reassembled body
    | Piece(offset: nat, payload: seq<byte>, total: nat)       // one block, marked with its offset
    | Raw(payload: seq<byte>)                                  // the response as it came

  type Outcome = (Client, Option<Req>, Option<Call>)

  /** Size2 may be missing or too small; the block itself then says more (src/block.c:1649-1657). */
  function Size(r: Rsp, b: Block): (s: nat)
    ensures s >= b.num * Chunk(b.szx) + |r.payload|
  {
    var end := b.num * Chunk(b.szx) + |r.payload|;
    if r.size2 < end then (if b.m then end + 1 else end) else r.size2
  }

  /** `rb` is the Block2 option as coap_get_block reads it; `newToken` is used if a request is sent. */
  ghost function OnContent(cap: nat, cl: Client, r: Rsp, rb: Option<Block>, newToken: nat, memory: Memory): Outcome
  {
    if r.cls != 2 || rb.None? then (cl, None, Some(Raw(r.payload)))
    else
      var b := rb.value;
      var p := Begin(cl, r);
      if r.etag.Some? && r.etag != p.etag then
        // the body has changed: ask for block 0 again
        (p.(initial := true, part := p.part.(body := None), token := newToken),
         Some(Req(newToken, Some(Block(0, false, b.szx)))), None)
      else if (r.etag.None? && p.etagSet) || r.fmt != p.fmt then BlockMode(p.(single := false), r, b)
      else if b.num in p.part.got then BlockMode(p, r, b)
      else if Refused(p.part.got, b.num, cap) then (p, None, Some(Raw(r.payload)))
      else OnNewBlock(p.(part := p.part.(got := p.part.got + {b.num})), r, b, newToken, memory)
  }

  /** The first response of a body fixes its ETag and format and forgets the recorded blocks. */
  ghost function Begin(cl: Client, r: Rsp): (p: Client)
    ensures !cl.initial ==> p == cl
    ensures !p.initial && p.part.body == cl.part.body && (p.token, p.base, p.single) == (cl.token, cl.base, cl.single)
    ensures r.etag.None? ==> p.etag == cl.etag
  {
    if !cl.initial then cl
    else
      cl.(initial := false, etagSet := r.etag.Some?, etag := if r.etag.Some? then r.etag else cl.etag,
          fmt := r.fmt, part := cl.part.(got := {}))
  }

  /** The block number is recorded; its payload goes into the buffer. */
  ghost function OnNewBlock(p: Client, r: Rsp, b: Block, newToken: nat, memory: Memory): Outcome
  {
    var body := if p.single then BuildBody(p.part.body, r.payload, b.num * Chunk(b.szx), Size(r, b), memory)
                else p.part.body;
    var q := p.(part := p.part.(body := body));
    if q.single && body.None? then BlockMode(q.(single := false), r, b)
    else AfterRecording(q, r, b, newToken)
  }

  /** The block is recorded: is the body complete? */
  ghost function AfterRecording(q: Client, r: Rsp, b: Block, newToken: nat): Outcome
  {
    var off, c := b.num * Chunk(b.szx), Chunk(b.szx);
    var piece := Piece(off, r.payload, Size(r, b));
    if Complete(q.part.got, BlockCount(Size(r, b), c)) then
      (q.(initial := true, token := q.base, part := q.part.(body := None)), None,
       Some(if q.single then Body(q.part.body, off + |r.payload|) else piece))
    else
      (if b.m then q.(token := newToken) else q,
       if b.m then Some(Req(newToken, Some(Block(b.num + 1, false, b.szx)))) else None,
       if q.single then None else Some(piece))
  }

  /** The label block_mode: this block alone goes to the application. */
  ghost function BlockMode(p: Client, r: Rsp, b: Block): Outcome
  {
    var off := b.num * Chunk(b.szx);
    var end := off + |r.payload|;
    (if b.m then p else p.(initial := true, token := p.base), None,
     Some(Piece(off, r.payload, if !b.m then end else if Size(r, b) > end + 1 then Size(r, b) else end + 1)))
  }

  // ----- requests that cannot be sent, and the mark for expiry -----

  /** The next request goes out, its PDU cannot be made, or sending it fails. */
  datatype Send = Sent | NoPdu | SendFailed

  /** A request that is not sent leaves the response to the application as it came. */
  ghost function Attempt(o: Outcome, token: nat, r: Rsp, newToken: nat, send: Send): Outcome
  {
    if o.1.None? || send == Sent then o
    else (o.0.(token := if send == NoPdu then token else newToken), None, Some(Raw(r.payload)))
  }

  /** How the handler is left: past the mark, by the test before it, or straight to it (the label fail_resp). */
  datatype Exit = Skip | Test | Mark

  ghost function AttemptExit(o: Outcome, e: Exit, send: Send): Exit
  {
    if o.1.None? || send == Sent then e else Mark
  }

  /** The response fits the body in progress. */
  ghost predicate Fits(p: Client, r: Rsp)
  {
    (if r.etag.Some? then r.etag == p.etag else !p.etagSet) && r.fmt == p.fmt
  }

  /** The exit when every request can be sent. */
  ghost function ExitOf(cap: nat, cl: Client, r: Rsp, rb: Option<Block>, memory: Memory): Exit
  {
    if r.cls != 2 || rb.None? then Test
    else
      var b, p := rb.value, Begin(cl, r);
      if r.etag.Some? && r.etag != p.etag then Skip
      else if !Fits(p, r) || b.num in p.part.got then Test
      else if Refused(p.part.got, b.num, cap) then Mark
      else ExitOfNew(p.(part := p.part.(got := p.part.got + {b.num})), r, b, memory)
  }

  ghost function ExitOfNew(p: Client, r: Rsp, b: Block, memory: Memory): Exit
  {
    var body := if p.single then BuildBody(p.part.body, r.payload, b.num * Chunk(b.szx), Size(r, b), memory)
                else p.part.body;
    if p.single && body.None? then Test else ExitOfRecorded(p.(part := p.part.(body := body)), r, b)
  }

  ghost function ExitOfRecorded(q: Client, r: Rsp, b: Block): Exit
  {
    if Complete(q.part.got, BlockCount(Size(r, b), Chunk(b.szx))) && q.part.body.Some? then Test else Skip
  }

  /** `observe_set`: taken from block 0 and from responses without a readable block option. */
  ghost function Observing(cl: Client, was: bool, r: Rsp, rb: Option<Block>, observe: bool): bool
  {
    if r.cls != 2 then was
    else if rb.None? then observe
    else if Fits(Begin(cl, r), r) && rb.value.num == 0 then observe else was
  }

  lemma {:induction false} BeginTwice(cl: Client, r: Rsp)
    ensures Begin(Begin(cl, r), r) == Begin(cl, r) && Begin(cl, r).token == cl.token
  {
  }

  /** `last_used` is set; `stray` is the More bit of an option that cannot be read. */
  ghost predicate Marked(cap: nat, cl: Client, was: bool, r: Rsp, rb: Option<Block>, stray: bool, observe: bool,
                         send: Send, newToken: nat, memory: Memory)
  {
    match AttemptExit(OnContent(cap, cl, r, rb, newToken, memory), ExitOf(cap, cl, r, rb, memory), send)
    case Skip => false
    case Test => !More(r, rb, stray) && !Observing(cl, was, r, rb, observe)
    case Mark => true
  }

  predicate More(r: Rsp, rb: Option<Block>, stray: bool)
  {
    r.cls == 2 && if rb.Some? then rb.value.m else stray
  }

  /** A new block of a body that is being put together marks the entry exactly if it completes the body, is the
      last one and the resource is not observed. */
  lemma {:induction false} SingleBodyMarks(cap: nat, cl: Client, was: bool, r: Rsp, b: Block, observe: bool,
                                           newToken: nat, memory: Memory)
    requires r.cls == 2 && r.payload != [] && cl.single && Fits(Begin(cl, r), r)
    requires b.num !in Begin(cl, r).part.got && !Refused(Begin(cl, r).part.got, b.num, cap)
    ensures Marked(cap, cl, was, r, Some(b), false, observe, Sent, newToken, memory) <==>
            && Complete(Begin(cl, r).part.got + {b.num}, BlockCount(Size(r, b), Chunk(b.szx)))
            && !b.m && !Observing(cl, was, r, Some(b), observe)
  {
  }

  /** A new block that is handed on alone never does, not even the last one of its body: such an entry is
      given up only after yet another response. */
  lemma {:induction false} PiecesNeverMark(cap: nat, cl: Client, was: bool, r: Rsp, b: Block, observe: bool,
                                           newToken: nat, memory: Memory)
    requires r.cls == 2 && !cl.single && cl.part.body.None? && Fits(Begin(cl, r), r)
    requires b.num !in Begin(cl, r).part.got && !Refused(Begin(cl, r).part.got, b.num, cap)
    ensures !Marked(cap, cl, was, r, Some(b), false, observe, Sent, newToken, memory)
  {
  }

  /** An entry whose next request went out is not marked. */
  lemma {:induction false} WaitingIsNotMarked(cap: nat, cl: Client, was: bool, r: Rsp, rb: Option<Block>, stray: bool,
                                              observe: bool, send: Send, newToken: nat, memory: Memory)
    requires Attempt(OnContent(cap, cl, r, rb, newToken, memory), cl.token, r, newToken, send).1.Some?
    ensures !Marked(cap, cl, was, r, rb, stray, observe, send, newToken, memory)
  {
  }

  // ----- what a response leads to, case by case -----

  datatype Case =
    | Unrelated   // an error, or no block
    | Restarts    // another ETag: the body has changed
    | Misfits     // the ETag is missing now, or the format has changed
    | Repeats     // recorded already
    | TooMany     // no room to record it
    | Loses       // nothing to put into the body
    | Completes | Asks | Waits

  /** `p` is the client after the first response of a body has been noted. */
  ghost function CaseOf(cap: nat, p: Client, r: Rsp, rb: Option<Block>): Case
  {
    if r.cls != 2 || rb.None? then Unrelated
    else if r.etag.Some? && r.etag != p.etag then Restarts
    else if (r.etag.None? && p.etagSet) || r.fmt != p.fmt then Misfits
    else if rb.value.num in p.part.got then Repeats
    else if Refused(p.part.got, rb.value.num, cap) then TooMany
    else if p.single && r.payload == [] then Loses
    else
      var b := rb.value;
      if Complete(p.part.got + {b.num}, BlockCount(Size(r, b), Chunk(b.szx))) then Completes
      else if b.m then Asks else Waits
  }

  /** One block alone: the total tells whether there is more, and a final block ends the body. */
  ghost predicate PassesAlone(p: Client, r: Rsp, b: Block, o: Outcome)
  {
    var (q, req, call) := o;
    && req == None && q == (if b.m then p else p.(initial := true, token := p.base))
    && call.Some? && call.value.Piece? && call.value.offset == b.num * Chunk(b.szx) && call.value.payload == r.payload
    && var end := call.value.offset + |r.payload|;
       && (call.value.total == end <==> !b.m)
       && (b.m ==> call.value.total > end && call.value.total >= r.size2 && call.value.total in {end + 1, r.size2})
  }

  /** `next` is asked for with the new token, or the response goes to the application as it came. */
  ghost predicate AsksFor(next: Block, p: Client, r: Rsp, newToken: nat, send: Send, call: Option<Call>, o: Outcome)
  {
    if send == Sent then o == (p.(token := newToken), Some(Req(newToken, Some(next))), call)
    else o == (p.(token := if send == NoPdu then p.token else newToken), None, Some(Raw(r.payload)))
  }

  /** In single-body mode the application waits for the body, otherwise it gets the block at its offset. */
  ghost function Meanwhile(p: Client, r: Rsp, b: Block): Option<Call>
  {
    if p.single then None else Some(Piece(b.num * Chunk(b.szx), r.payload, Size(r, b)))
  }

  /** The number is recorded and, in single-body mode, the payload written. */
  ghost function WithBlock(p: Client, r: Rsp, b: Block, memory: Memory): Client
  {
    var body := if p.single then BuildBody(p.part.body, r.payload, b.num * Chunk(b.szx), Size(r, b), memory)
                else p.part.body;
    p.(part := Partial(p.part.got + {b.num}, body))
  }

  ghost predicate LeadsTo(c: Case, cl: Client, r: Rsp, rb: Option<Block>, newToken: nat, send: Send, memory: Memory,
                          o: Outcome)
    requires rb.None? ==> c == Unrelated
  {
    var p := Begin(cl, r);
    match c
    case Unrelated => o == (cl, None, Some(Raw(r.payload)))
    case Restarts =>
      var again := p.(initial := true, part := p.part.(body := None));
      AsksFor(Block(0, false, rb.value.szx), again, r, newToken, send, None, o)
    case Misfits => PassesAlone(p.(single := false), r, rb.value, o)
    case Repeats => PassesAlone(p, r, rb.value, o)
    case TooMany => o == (p, None, Some(Raw(r.payload)))
    case Loses =>
      PassesAlone(p.(single := false, part := Partial(p.part.got + {rb.value.num}, None)), r, rb.value, o)
    case Completes =>
      var b, q := rb.value, WithBlock(p, r, rb.value, memory);
      && o.0 == q.(initial := true, token := p.base, part := q.part.(body := None)) && o.1 == None
      && (if p.single then o.2 == Some(Body(q.part.body, b.num * Chunk(b.szx) + |r.payload|)) && q.part.body.Some?
          else o.2 == Meanwhile(p, r, b))
    case Asks =>
      var b := rb.value;
      AsksFor(Block(b.num + 1, false, b.szx), WithBlock(p, r, b, memory), r, newToken, send, Meanwhile(p, r, b), o)
    case Waits => o == (WithBlock(p, r, rb.value, memory), None, Meanwhile(p, r, rb.value))
  }

  /** When the entry is marked for expiry: at the end of a body that is not observed, and on a failure. `more` is
      the More bit of the response. */
  ghost predicate Marks(c: Case, p: Client, more: bool, observing: bool, send: Send)
  {
    match c
    case Unrelated | Misfits | Repeats | Loses => !more && !observing
    case Completes => !more && !observing && (p.single || p.part.body.Some?)
    case TooMany => true
    case Restarts | Asks => send != Sent
    case Waits => false
  }

  lemma {:induction false} ContentLeadsTo(
    cap: nat, cl: Client, r: Rsp, rb: Option<Block>, newToken: nat, send: Send, memory: Memory)
    ensures var c := CaseOf(cap, Begin(cl, r), r, rb);
            LeadsTo(c, cl, r, rb, newToken, send, memory,
                    Attempt(OnContent(cap, cl, r, rb, newToken, memory), cl.token, r, newToken, send))
  {
    var p := Begin(cl, r);
    var c := CaseOf(cap, p, r, rb);
    if c in {Loses, Completes, Asks, Waits} {
      var b := rb.value;
      var q := p.(part := p.part.(got := p.part.got + {b.num}));
      assert OnContent(cap, cl, r, rb, newToken, memory) == OnNewBlock(q, r, b, newToken, memory);
      BuiltUnlessEmpty(p, r, b, memory);
      NewLeadsTo(c, p, r, b, newToken, send, memory);
    }
  }

  lemma {:induction false} BuiltUnlessEmpty(p: Client, r: Rsp, b: Block, memory: Memory)
    ensures var body := BuildBody(p.part.body, r.payload, b.num * Chunk(b.szx), Size(r, b), memory);
            body.None? <==> r.payload == []
  {
  }

  lemma {:induction false} NewLeadsTo(
    c: Case, p: Client, r: Rsp, b: Block, newToken: nat, send: Send, memory: Memory)
    requires c in {Loses, Completes, Asks, Waits} && !p.initial && (c == Loses <==> p.single && r.payload == [])
    requires c != Loses ==>
               var all := Complete(p.part.got + {b.num}, BlockCount(Size(r, b), Chunk(b.szx)));
               (c == Completes <==> all) && (c == Asks <==> !all && b.m)
    ensures var q := p.(part := p.part.(got := p.part.got + {b.num}));
            LeadsTo(c, p, r, Some(b), newToken, send, memory,
                    Attempt(OnNewBlock(q, r, b, newToken, memory), p.token, r, newToken, send))
  {
    BuiltUnlessEmpty(p, r, b, memory);
  }

  lemma {:induction false} ContentMarks(cap: nat, cl: Client, was: bool, r: Rsp, rb: Option<Block>, stray: bool,
                                        observe: bool, send: Send, newToken: nat, memory: Memory)
    ensures Marked(cap, cl, was, r, rb, stray, observe, send, newToken, memory) <==>
            Marks(CaseOf(cap, Begin(cl, r), r, rb), Begin(cl, r),
                  if r.cls != 2 then false else if rb.Some? then rb.value.m else stray,
                  Observing(cl, was, r, rb, observe), send)
  {
    if r.cls == 2 && rb.Some? { BuiltUnlessEmpty(Begin(cl, r), r, rb.value, memory); }
  }

  lemma {:induction false} ObservedIn(cap: nat, cl: Client, was: bool, r: Rsp, rb: Option<Block>, observe: bool)
    ensures Observing(cl, was, r, rb, observe) ==
            var c := CaseOf(cap, Begin(cl, r), r, rb);
            if (if c == Unrelated then r.cls == 2 else c !in {Restarts, Misfits} && rb.value.num == 0)
            then observe else was
  {
  }

  // ----- coap_lg_crcv_t -----

  class LgCrcv {
    var initial: bool
    var etagSet: bool
    var etag: Option<nat>
    var contentFormat: nat
    const rec: RBlocks
    var body: array?<byte>
    var token: nat
    const baseToken: nat
    var singleBody: bool     // the COAP_BLOCK_SINGLE_BODY bit of session->block_mode
    var observing: bool      // observe_set
    var lastUsed: nat        // 0 while the transfer is in progress

    constructor (token: nat, cap: nat, single: bool)
      requires cap >= 2
      ensures rec.Valid() && rec.range.Length == cap
      ensures State() == Client(true, false, None, 0, Partial({}, None), token, token, single)
      ensures !observing && lastUsed == 0
    {
      initial, etagSet, etag, contentFormat := true, false, None, 0;
      rec := new RBlocks(cap);
      body, this.token, baseToken, singleBody := null, token, token, single;
      observing, lastUsed := false, 0;
    }

    ghost function State(): Client
      reads this, rec, body
    {
      Client(initial, etagSet, etag, contentFormat, Partial(rec.got, Contents(body)), token, baseToken, singleBody)
    }

    method BeginBody(r: Rsp)
      requires rec.Valid()
      modifies this, rec
      ensures rec.Valid() && body == old(body) && State() == Begin(old(State()), r)
      ensures observing == old(observing) && lastUsed == old(lastUsed)
    {
      if initial {
        initial := false;
        if r.etag.Some? {
          etag := r.etag;
          etagSet := true;
        } else {
          etagSet := false;
        }
        contentFormat := r.fmt;
        rec.Reset();
      }
    }

    method PassOn(r: Rsp, b: Block) returns (call: Call)
      modifies this`initial, this`token
      ensures (State(), None, Some(call)) == BlockMode(old(State()), r, b)
    {
      var off := b.num * Chunk(b.szx);
      var total := off + |r.payload|;
      if b.m {
        total := total + 1;
        if Size(r, b) > total {
          total := Size(r, b);
        }
      } else {
        initial := true;
        token := baseToken;
      }
      call := Piece(off, r.payload, total);
    }

    /** A new token and a request for `block`. */
    method Ask(newToken: nat, block: Block, send: Send) returns (request: Option<Req>)
      modifies this`token
      ensures request == if send == Sent then Some(Req(newToken, Some(block))) else None
      ensures token == if send == NoPdu then old(token) else newToken
    {
      if send == NoPdu {
        return None;
      }
      token := newToken;
      request := if send == Sent then Some(Req(newToken, Some(block))) else None;
    }

    method Conclude(r: Rsp, b: Block, newToken: nat, send: Send)
      returns (request: Option<Req>, call: Option<Call>, exit: Exit)
      requires rec.Valid() && b.num in rec.got
      modifies this`initial, this`token, this`body
      ensures var o := AfterRecording(old(State()), r, b, newToken);
              && (State(), request, call) == Attempt(o, old(token), r, newToken, send)
              && exit == AttemptExit(o, ExitOfRecorded(old(State()), r, b), send)
      ensures body == null || body == old(body)
    {
      assert rec.used > 0 by { assert Has(rec.range[..rec.used], b.num); }
      var off, c := b.num * Chunk(b.szx), Chunk(b.szx);
      request, call, exit := None, None, Skip;
      var all := rec.CheckAllIn((Size(r, b) + c - 1) / c);
      if !all {
        if b.m {
          request := Ask(newToken, Block(b.num + 1, false, b.szx), send);
          if request.None? {
            return None, Some(Raw(r.payload)), Mark;
          }
        }
        if !singleBody {
          call := Some(Piece(off, r.payload, Size(r, b)));
        }
        return;
      }
      if singleBody {
        call := Some(Body(if body == null then None else Some(body[..]), off + |r.payload|));
      } else {
        call := Some(Piece(off, r.payload, Size(r, b)));
      }
      initial := true;
      token := baseToken;
      if body != null {
        body, exit := null, Test;
      }
    }

    method NewBlock(r: Rsp, b: Block, newToken: nat, send: Send)
      returns (request: Option<Req>, call: Option<Call>, ghost memory: Memory, exit: Exit)
      requires rec.Valid() && b.num in rec.got
      modifies this`initial, this`token, this`body, this`singleBody, body
      ensures var o := OnNewBlock(old(State()), r, b, newToken, memory);
              && (State(), request, call) == Attempt(o, old(token), r, newToken, send)
              && exit == AttemptExit(o, ExitOfNew(old(State()), r, b, memory), send)
      ensures body != null ==> body == old(body) || fresh(body)
    {
      memory := _ => 0;
      if singleBody {
        body, memory := BuildBodyInPlace(body, r.payload, b.num * Chunk(b.szx), Size(r, b));
        if body == null {
          singleBody := false;
          var c := PassOn(r, b);
          return None, Some(c), memory, Test;
        }
      }
      request, call, exit := Conclude(r, b, newToken, send);
    }

    /** A block that fits the body in progress. */
    method FittingBlock(r: Rsp, b: Block, newToken: nat, send: Send, now: nat)
      returns (request: Option<Req>, call: Option<Call>, ghost memory: Memory, exit: Exit)
      requires rec.Valid() && r.cls == 2 && !initial && Fits(State(), r)
      modifies this`initial, this`token, this`body, this`singleBody, rec, rec.range, body
      ensures rec.Valid()
      ensures var o := OnContent(rec.range.Length, old(State()), r, Some(b), newToken, memory);
              && (State(), request, call) == Attempt(o, old(token), r, newToken, send)
              && exit == AttemptExit(o, ExitOf(rec.range.Length, old(State()), r, Some(b), memory), send)
    {
      memory := _ => 0;
      request, call, exit := None, None, Test;
      var seen := rec.CheckIfReceived(b.num);
      if seen {
        var c := PassOn(r, b);
        return None, Some(c), memory, Test;
      }
      var ok := rec.Update(b.num, now);
      if !ok {
        return None, Some(Raw(r.payload)), memory, Mark;
      }
      request, call, memory, exit := NewBlock(r, b, newToken, send);
    }

    /** The body has changed: block 0 is asked for again. */
    method Restart(r: Rsp, b: Block, newToken: nat, send: Send)
      returns (request: Option<Req>, call: Option<Call>, ghost memory: Memory, exit: Exit)
      requires rec.Valid() && r.cls == 2 && !initial && r.etag.Some? && r.etag != etag
      modifies this`initial, this`token, this`body
      ensures var o := OnContent(rec.range.Length, old(State()), r, Some(b), newToken, memory);
              && (State(), request, call) == Attempt(o, old(token), r, newToken, send)
              && exit == AttemptExit(o, ExitOf(rec.range.Length, old(State()), r, Some(b), memory), send)
    {
      memory := _ => 0;
      initial := true;
      body := null;
      request := Ask(newToken, Block(0, false, b.szx), send);
      call := if request.Some? then None else Some(Raw(r.payload));
      exit := if request.Some? then Skip else Mark;
    }

    /** The ETag is missing now, or the format has changed: no single body any more. */
    method PassMisfit(r: Rsp, b: Block, newToken: nat)
      returns (request: Option<Req>, call: Option<Call>, ghost memory: Memory, exit: Exit)
      requires rec.Valid() && r.cls == 2 && !initial && (r.etag.Some? ==> r.etag == etag) && !Fits(State(), r)
      modifies this`initial, this`token, this`singleBody
      ensures (State(), request, call) == OnContent(rec.range.Length, old(State()), r, Some(b), newToken, memory)
      ensures request.None? && exit == ExitOf(rec.range.Length, old(State()), r, Some(b), memory)
    {
      memory := _ => 0;
      singleBody := false;
      var c := PassOn(r, b);
      return None, Some(c), memory, Test;
    }

    /** A response with a readable block option, once the first one of its body has been noted. */
    method Continue(r: Rsp, b: Block, observe: bool, newToken: nat, send: Send, now: nat)
      returns (request: Option<Req>, call: Option<Call>, ghost memory: Memory, exit: Exit)
      requires rec.Valid() && r.cls == 2 && !initial
      modifies this, rec, rec.range, body
      ensures rec.Valid()
      ensures var o := OnContent(rec.range.Length, old(State()), r, Some(b), newToken, memory);
              && (State(), request, call) == Attempt(o, old(token), r, newToken, send)
              && exit == AttemptExit(o, ExitOf(rec.range.Length, old(State()), r, Some(b), memory), send)
      ensures observing == Observing(old(State()), old(observing), r, Some(b), observe) && lastUsed == old(lastUsed)
    {
      memory := _ => 0;
      if r.etag.Some? && r.etag != etag {
        request, call, memory, exit := Restart(r, b, newToken, send);
        return;
      }
      if (r.etag.None? && etagSet) || r.fmt != contentFormat {
        request, call, memory, exit := PassMisfit(r, b, newToken);
        return;
      }
      if b.num == 0 {
        observing := observe;
      }
      request, call, memory, exit := FittingBlock(r, b, newToken, send, now);
    }

    method HandleBlock(r: Rsp, b: Block, observe: bool, newToken: nat, send: Send, now: nat)
      returns (request: Option<Req>, call: Option<Call>, ghost memory: Memory, exit: Exit)
      requires rec.Valid() && r.cls == 2
      modifies this, rec, rec.range, body
      ensures rec.Valid()
      ensures var o := OnContent(rec.range.Length, old(State()), r, Some(b), newToken, memory);
              && (State(), request, call) == Attempt(o, old(token), r, newToken, send)
              && exit == AttemptExit(o, ExitOf(rec.range.Length, old(State()), r, Some(b), memory), send)
      ensures observing == Observing(old(State()), old(observing), r, Some(b), observe) && lastUsed == old(lastUsed)
    {
      BeginBody(r);
      BeginTwice(old(State()), r);
      request, call, memory, exit := Continue(r, b, observe, newToken, send, now);
    }

    /** The handler; HandleContent says what it comes to. */
    method TakeContent(r: Rsp, rb: Option<Block>, stray: bool, observe: bool, newToken: nat, send: Send, now: nat)
      returns (request: Option<Req>, call: Option<Call>, ghost memory: Memory)
      requires rec.Valid()
      modifies this, rec, rec.range, body
      ensures rec.Valid()
      ensures (State(), request, call) ==
              Attempt(OnContent(rec.range.Length, old(State()), r, rb, newToken, memory), old(token), r, newToken, send)
      ensures observing == Observing(old(State()), old(observing), r, rb, observe)
      ensures var marked := Marked(rec.range.Length, old(State()), old(observing), r, rb, stray, observe, send,
                                   newToken, memory);
              lastUsed == if marked then now else old(lastUsed)
    {
      memory := _ => 0;
      request, call := None, Some(Raw(r.payload));
      var more, exit := false, Test;
      if r.cls == 2 && rb.Some? {
        more := rb.value.m;
        request, call, memory, exit := HandleBlock(r, rb.value, observe, newToken, send, now);
      } else if r.cls == 2 {
        more, observing := stray, observe;
      }
      if exit == Mark || (exit == Test && !more && !observing) {
        lastUsed := now;
      }
    }

    /** `stray` is the More bit of a block option that cannot be read, `observe` says whether the response has an
        Observe option, `send` what becomes of a next request. */
    method HandleContent(r: Rsp, rb: Option<Block>, stray: bool, observe: bool, newToken: nat, send: Send, now: nat)
      returns (request: Option<Req>, call: Option<Call>, ghost memory: Memory)
      requires rec.Valid()
      modifies this, rec, rec.range, body
      ensures rec.Valid()
      ensures (State(), request, call) ==
              Attempt(OnContent(rec.range.Length, old(State()), r, rb, newToken, memory), old(token), r, newToken, send)
      // state, request and call are those of the case the response is
      ensures LeadsTo(CaseOf(rec.range.Length, Begin(old(State()), r), r, rb), old(State()), r, rb, newToken, send,
                      memory, (State(), request, call))
      // Observe is taken from block 0 of the body in progress, and from a response without a block
      ensures observing == var c := CaseOf(rec.range.Length, Begin(old(State()), r), r, rb);
                           if (if c == Unrelated then r.cls == 2 else c !in {Restarts, Misfits} && rb.value.num == 0)
                           then observe else old(observing)
      ensures lastUsed == var c := CaseOf(rec.range.Length, Begin(old(State()), r), r, rb);
                          var more := r.cls == 2 && if rb.Some? then rb.value.m else stray;
                          if Marks(c, Begin(old(State()), r), more, observing, send) then now else old(lastUsed)
    {
      request, call, memory := TakeContent(r, rb, stray, observe, newToken, send, now);
      ContentLeadsTo(rec.range.Length, old(State()), r, rb, newToken, send, memory);
      ContentMarks(rec.range.Length, old(State()), old(observing), r, rb, stray, observe, send, newToken, memory);
      ObservedIn(rec.range.Length, old(State()), old(observing), r, rb, observe);
    }
  }

  /** The first response of a body is taken whatever the client held before: it is never a changed body, a
      repeat or one block too many, and the only request it can lead to is the one for the next block. */
  lemma {:induction false} FirstResponseIsTaken(cap: nat, cl: Client, r: Rsp, b: Block, newToken: nat, memory: Memory)
    requires cl.initial && r.cls == 2 && cap >= 2
    ensures var (q, req, call) := OnContent(cap, cl, r, Some(b), newToken, memory);
            && q.part.got == {b.num} && q.fmt == r.fmt
            && q.etagSet == r.etag.Some? && (r.etag.Some? ==> q.etag == r.etag)
            && (req.Some? ==> req.value.block == Some(Block(b.num + 1, false, b.szx)))
            && (call.Some? ==> !call.value.Raw?)
  {
    assert Starts({}) == {};
    assert {} + {b.num} == {b.num};
  }

  /** Without Size2, or with one that is too small, the More bit alone decides whether blocks 0..num are all. */
  lemma {:induction false} MissingSize2(r: Rsp, b: Block)
    requires var c := Chunk(b.szx);
             && 0 < |r.payload| <= c && (b.m ==> |r.payload| == c) && r.size2 < b.num * c + |r.payload|
    ensures Complete(Prefix(b.num + 1), BlockCount(Size(r, b), Chunk(b.szx))) <==> !b.m
  {
    var c, k := Chunk(b.szx), b.num;
    MulSucc(k, c);
    BlockInside(Size(r, b), c, k);
    BlockInside(Size(r, b), c, k + 1);
    if b.m {
      NotYetComplete(k + 1, BlockCount(Size(r, b), c));
    } else {
      assert Complete(Prefix(k + 1), BlockCount(Size(r, b), c));
    }
  }
}
