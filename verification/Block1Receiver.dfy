/** A server receiving a large body with Block1: coap_handle_request_put_block (src/block.c:1207-1419). */
module Block1Receiver {
  import opened Common
  import opened BlockOption
  import opened RecBlocks
  import opened Reassembly
  import opened Block1Sender

  /** coap_lg_srcv_t for the resource, if there is one; `done` once `last_used` is set. */
  datatype Receiver = Idle | Receiving(fmt: nat, total: nat, part: Partial, done: bool)

  /** What the application's handler is given. */
  datatype Delivery =
    | Nothing                                                   // not called
    | WholeBody(body: seq<byte>, length: nat)                   // the reassembled body
    | Random(offset: nat, payload: seq<byte>, total: nat)       // one block, marked with its offset
    | Plain(payload: seq<byte>)                                 // the PDU as it came
    | NullDereference                                           // not reached: body_data is NULL at src/block.c:1352

  /** The number of blocks to wait for; the sum is cut to 32 bits before the division. */
  function Expected(total: nat, c: nat): nat
    requires c > 0
  {
    (total + c - 1) % WORD / c
  }

  /** `rb` is the Block1 option as read, `appCls` the class of the code the handler sets and `single` the
      COAP_BLOCK_SINGLE_BODY bit of the session. */
  ghost function OnPut(cap: nat, single: bool, st: Receiver, fmt: nat, rb: Option<Block>, size1: nat,
                       payload: seq<byte>, memory: Memory, appCls: nat): (Receiver, Option<Resp>, Delivery)
  {
    var app := Some(Resp(appCls, None));
    if rb.None? then (st, app, Plain(payload))
    else
      var b, c := rb.value, Chunk(rb.value.szx);
      if st.Idle? && b.num != 0 then
        (st, app, Random(b.num * c, payload, |payload| + b.num * c + if b.m then 1 else 0))
      else if st.Idle? && !b.m then (st, app, Plain(payload))
      else
        var p := if st.Idle? then Receiving(fmt, size1, Partial({}, None), false) else st;
        if fmt != p.fmt then (Idle, Some(Resp(4, None)), Nothing)
        else if single then OnTracked(cap, p, b, payload, memory, appCls)
        else PassedOn(p, b, size1, payload, appCls)
  }

  /** Every block goes to the handler as it comes; an entry only marks the transfer. */
  ghost function PassedOn(p: Receiver, b: Block, size1: nat, payload: seq<byte>, appCls: nat)
    : (Receiver, Option<Resp>, Delivery)
    requires p.Receiving?
  {
    var off := b.num * Chunk(b.szx);
    var end := off + |payload|;
    if b.m then (p, Some(Resp(appCls, Some(b))), Random(off, payload, if size1 > end + 1 then size1 else end + 1))
    else (p.(done := true), Some(Resp(appCls, None)), Random(off, payload, end))
  }

  /** The part of the handler that puts the body together in an existing entry. */
  ghost function OnTracked(cap: nat, p: Receiver, b: Block, payload: seq<byte>, memory: Memory, appCls: nat)
    : (Receiver, Option<Resp>, Delivery)
    requires p.Receiving?
  {
    if b.num !in p.part.got && Refused(p.part.got, b.num, cap) then (Idle, Some(Resp(4, None)), Nothing)
    else
      AfterRecording(p.(part := Recorded(p.part, b.num, payload, b.num * Chunk(b.szx), p.total, memory)),
                     b, b.num !in p.part.got, payload, appCls)
  }

  /** The block is recorded: is the body complete? */
  ghost function AfterRecording(p: Receiver, b: Block, isNew: bool, payload: seq<byte>, appCls: nat)
    : (Receiver, Option<Resp>, Delivery)
    requires p.Receiving?
  {
    var app := Some(Resp(appCls, None));
    if isNew && p.part.body.None? then (p, app, Plain(payload))
    else if !Complete(p.part.got, Expected(p.total, Chunk(b.szx))) then
      (p, if b.m then Some(Resp(2, Some(b))) else None, Nothing)
    else if p.part.body.None? then (p, None, NullDereference)
    else (p.(done := true), app, WholeBody(p.part.body.value, p.total))
  }

  ghost function Recorded(p: Partial, num: nat, payload: seq<byte>, off: nat, total: nat, memory: Memory): Partial
  {
    if num in p.got then p
    else Partial(p.got + {num}, BuildBody(p.body, payload, off, total, memory))
  }

  // ----- what a request leads to, outcome by outcome -----

  /** The request belongs to an entry: there is one, or a first block with more to come makes one. */
  predicate Belongs(st: Receiver, rb: Option<Block>)
  {
    rb.Some? && (st.Receiving? || (rb.value.num == 0 && rb.value.m))
  }

  /** The entry it belongs to; a new one takes format and total from the request. */
  function EntryFor(st: Receiver, fmt: nat, size1: nat): (r: Receiver)
    ensures r.Receiving?
  {
    if st.Receiving? then st else Receiving(fmt, size1, Partial({}, None), false)
  }

  /** Nothing is tracked: the handler gets the PDU, marked with its offset if it is a later block. */
  ghost predicate GoesToHandler(rb: Option<Block>, payload: seq<byte>, appCls: nat, reply: Option<Resp>, call: Delivery)
  {
    && reply == Some(Resp(appCls, None))
    && (if rb.None? || rb.value.num == 0 then call == Plain(payload)
        else
          && call.Random? && call.offset == rb.value.num * Chunk(rb.value.szx) && call.payload == payload
          && var end := call.offset + |payload|; call.total == if rb.value.m then end + 1 else end)
  }

  /** Another format, or in single-body mode one block too many. */
  ghost predicate Rejects(cap: nat, single: bool, p: Receiver, fmt: nat, b: Block)
    requires p.Receiving?
  {
    fmt != p.fmt || (single && Refused(p.part.got, b.num, cap))
  }

  /** Without single-body mode the handler learns from the total whether there is more, and the last block
      ends the entry. */
  ghost predicate HandsOn(p: Receiver, b: Block, size1: nat, payload: seq<byte>, appCls: nat, next: Receiver,
                          reply: Option<Resp>, call: Delivery)
    requires p.Receiving?
  {
    && next == p.(done := p.done || !b.m)
    && reply == Some(Resp(appCls, if b.m then Some(b) else None))
    && call.Random? && call.offset == b.num * Chunk(b.szx) && call.payload == payload
    && var end := call.offset + |payload|;
       && (call.total == end <==> !b.m)
       && (b.m ==> call.total > end && call.total >= size1 && call.total in {end + 1, size1})
  }

  /** In single-body mode the block is recorded, and written if it is new. While blocks are missing it is
      acknowledged as itself, if more were announced; the block that completes the body ends the entry. */
  ghost predicate PutsTogether(p: Receiver, b: Block, payload: seq<byte>, memory: Memory, appCls: nat, next: Receiver,
                               reply: Option<Resp>, call: Delivery)
    requires p.Receiving?
  {
    var c, isNew, app := Chunk(b.szx), b.num !in p.part.got, Some(Resp(appCls, None));
    && next.Receiving? && next.fmt == p.fmt && next.total == p.total && next.part.got == p.part.got + {b.num}
    && next.part.body == (if isNew then BuildBody(p.part.body, payload, b.num * c, p.total, memory) else p.part.body)
    && (call.WholeBody? ==> next.done && reply == app && call.length == p.total && next.part.body == Some(call.body))
    && (!call.WholeBody? ==> next.done == p.done)
    && (isNew && next.part.body.None? ==> call == Plain(payload) && reply == app)
    && (!isNew || next.part.body.Some? ==>
          if Complete(next.part.got, (p.total + c - 1) % WORD / c)
          then if next.part.body.Some? then call.WholeBody? else call == NullDereference && reply == None
          else call == Nothing && reply == if b.m then Some(Resp(2, Some(b))) else None)
  }

  class LgSrcv {
    const contentFormat: nat
    const totalLen: nat
    const rec: RBlocks
    var body: array?<byte>
    var used: bool          // last_used is set

    constructor (fmt: nat, total: nat, cap: nat)
      requires cap >= 2
      ensures rec.Valid() && fresh(rec) && fresh(rec.range) && rec.range.Length == cap && rec.got == {}
      ensures contentFormat == fmt && totalLen == total && body == null && !used
    {
      contentFormat, totalLen, body, used := fmt, total, null, false;
      rec := new RBlocks(cap);
    }

    ghost function Part(): Partial
      reads this, rec, body
    {
      Partial(rec.got, Contents(body))
    }

    /** Record a block that is new and write its payload; a refusal leaves everything as it was. */
    method Record(num: nat, payload: seq<byte>, off: nat, now: nat)
      returns (ok: bool, isNew: bool, ghost memory: Memory)
      requires rec.Valid()
      modifies this, rec, rec.range, body
      ensures rec.Valid() && used == old(used)
      ensures isNew <==> num !in old(rec.got)
      ensures !ok <==> isNew && Refused(old(rec.got), num, rec.range.Length)
      ensures ok ==> Part() == Recorded(old(Part()), num, payload, off, totalLen, memory)
      ensures ok ==> num in rec.got
      ensures body != null ==> body == old(body) || fresh(body)
    {
      memory := _ => 0;
      ok := true;
      var seen := rec.CheckIfReceived(num);
      isNew := !seen;
      if !seen {
        ok := rec.Update(num, now);
        if ok {
          body, memory := BuildBodyInPlace(body, payload, off, totalLen);
        }
      }
    }

    ghost function State(): Receiver
      reads this, rec, body
    {
      Receiving(contentFormat, totalLen, Part(), used)
    }

    /** A block for this entry; `keep` is false when the entry has to be freed. */
    method HandleBlock(b: Block, payload: seq<byte>, appCls: nat, now: nat)
      returns (keep: bool, reply: Option<Resp>, call: Delivery, ghost memory: Memory)
      requires rec.Valid()
      modifies this, rec, rec.range, body
      ensures rec.Valid()
      ensures (if keep then State() else Idle, reply, call) ==
              OnTracked(rec.range.Length, old(State()), b, payload, memory, appCls)
      ensures keep <==> !Refused(old(rec.got), b.num, rec.range.Length)
      ensures keep ==> PutsTogether(old(State()), b, payload, memory, appCls, State(), reply, call)
      ensures !keep ==> reply == Some(Resp(4, None)) && call == Nothing
      ensures body != null ==> body == old(body) || fresh(body)
    {
      var ok, isNew;
      ok, isNew, memory := Record(b.num, payload, b.num * Chunk(b.szx), now);
      if !ok {
        return false, Some(Resp(4, None)), Nothing, memory;
      }
      reply, call := Conclude(b, isNew, payload, appCls);
      keep := true;
      TrackedPutsTogether(rec.range.Length, old(State()), b, payload, memory, appCls);
    }

    method Conclude(b: Block, isNew: bool, payload: seq<byte>, appCls: nat)
      returns (reply: Option<Resp>, call: Delivery)
      requires rec.Valid() && b.num in rec.got
      modifies this`used
      ensures (State(), reply, call) == AfterRecording(old(State()), b, isNew, payload, appCls)
    {
      SomeRangeUsed(rec, b.num);
      reply, call := Some(Resp(appCls, None)), Plain(payload);
      if isNew && body == null {
        return;
      }
      var c := Chunk(b.szx);
      var all := rec.CheckAllIn((totalLen + c - 1) % WORD / c);
      if !all {
        return if b.m then Some(Resp(2, Some(b))) else None, Nothing;
      }
      if body == null {
        return None, NullDereference;
      }
      call := WholeBody(body[..], totalLen);
      used := true;
    }

    /** Without single-body mode the handler gets the block itself (src/block.c:1366-1404). */
    method PassBlock(b: Block, size1: nat, payload: seq<byte>, appCls: nat)
      returns (reply: Option<Resp>, call: Delivery)
      modifies this`used
      ensures (State(), reply, call) == PassedOn(old(State()), b, size1, payload, appCls)
      ensures HandsOn(old(State()), b, size1, payload, appCls, State(), reply, call)
    {
      var off := b.num * Chunk(b.szx);
      var total := off + |payload|;
      reply := Some(Resp(appCls, None));
      if b.m {
        total := total + 1;
        if size1 > total {
          total := size1;
        }
        reply := Some(Resp(appCls, Some(b)));
      } else {
        used := true;
      }
      call := Random(off, payload, total);
    }
  }

  class ServerSession {
    var srcv: LgSrcv?       // the entry for the resource in session->lg_srcv
    const cap: nat          // COAP_RBLOCK_CNT
    const single: bool      // COAP_BLOCK_SINGLE_BODY

    constructor (cap: nat, single: bool)
      requires cap >= 2
      ensures Valid() && State() == Idle && this.cap == cap && this.single == single
    {
      srcv := null;
      this.cap, this.single := cap, single;
    }

    ghost predicate Valid()
      reads this, srcv, if srcv == null then {} else {srcv.rec, srcv.rec.range}
    {
      cap >= 2 && (srcv != null ==> srcv.rec.Valid() && srcv.rec.range.Length == cap)
    }

    ghost function State(): Receiver
      reads this, srcv, if srcv == null then {} else {srcv.rec, srcv.body}
    {
      if srcv == null then Idle else srcv.State()
    }

    method HandlePut(fmt: nat, block: Option<Block>, size1: nat, payload: seq<byte>, appCls: nat, now: nat)
      returns (reply: Option<Resp>, call: Delivery, ghost memory: Memory)
      requires Valid()
      modifies this, srcv, if srcv == null then {} else {srcv.rec, srcv.rec.range, srcv.body}
      ensures Valid()
      ensures (State(), reply, call) == OnPut(cap, single, old(State()), fmt, block, size1, payload, memory, appCls)
      ensures !Belongs(old(State()), block) ==>
                State() == old(State()) && GoesToHandler(block, payload, appCls, reply, call)
      ensures Belongs(old(State()), block) ==>
                var p, b := EntryFor(old(State()), fmt, size1), block.value;
                // a rejected block frees the entry and calls nobody
                if Rejects(cap, single, p, fmt, b)
                then State() == Idle && reply == Some(Resp(4, None)) && call == Nothing
                else if single then PutsTogether(p, b, payload, memory, appCls, State(), reply, call)
                else HandsOn(p, b, size1, payload, appCls, State(), reply, call)
    {
      memory := _ => 0;
      reply, call := Some(Resp(appCls, None)), Plain(payload);
      if block.None? {
        return;
      }
      var b, c := block.value, Chunk(block.value.szx);
      if srcv == null {
        if b.num != 0 {
          call := Random(b.num * c, payload, |payload| + b.num * c + if b.m then 1 else 0);
          return;
        }
        if !b.m {
          return;
        }
        srcv := new LgSrcv(fmt, size1, cap);
      }
      if fmt != srcv.contentFormat {
        srcv := null;
        return Some(Resp(4, None)), Nothing, memory;
      }
      if single {
        var keep;
        keep, reply, call, memory := srcv.HandleBlock(b, payload, appCls, now);
        if !keep {
          srcv := null;
        }
      } else {
        reply, call := srcv.PassBlock(b, size1, payload, appCls);
      }
    }
  }

  lemma {:induction false} TrackedPutsTogether(
    cap: nat, p: Receiver, b: Block, payload: seq<byte>, memory: Memory, appCls: nat)
    requires p.Receiving? && !Refused(p.part.got, b.num, cap)
    ensures var (next, reply, call) := OnTracked(cap, p, b, payload, memory, appCls);
            PutsTogether(p, b, payload, memory, appCls, next, reply, call)
  {
    if b.num in p.part.got { assert p.part.got + {b.num} == p.part.got; }
  }

  lemma {:induction false} SomeRangeUsed(rec: RBlocks, num: nat)
    requires rec.Valid() && num in rec.got
    ensures rec.used > 0
  {
    assert Has(rec.range[..rec.used], num);
  }
}
