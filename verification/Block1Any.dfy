/** A server that receives arbitrary Block1 requests, not only those of one honest sender: where each byte
    given to the handler comes from (src/block.c:1230-1364 and 1544-1583). */
module Block1Any {
  import opened Common
  import opened BlockOption
  import opened RecBlocks
  import opened Reassembly
  import opened Block1Sender
  import opened Block1Receiver

  datatype Input =
    | Arrives(fmt: nat, rb: Option<Block>, size1: nat, payload: seq<byte>, memory: Memory, appCls: nat)
    | Expires

  /** A block that was recorded, in the order of recording. */
  datatype Rec = Rec(num: nat, off: nat, payload: seq<byte>)

  /** The receiver, the blocks recorded in its entry, and what the memory of its buffer held at first. */
  datatype Tracked = Tracked(r: Receiver, recs: seq<Rec>, memory: Memory)

  ghost function Handled(cap: nat, single: bool, r: Receiver, i: Input): (Receiver, Option<Resp>, Delivery)
    requires i.Arrives?
  {
    OnPut(cap, single, r, i.fmt, i.rb, i.size1, i.payload, i.memory, i.appCls)
  }

  ghost function Part(r: Receiver): Partial { if r.Idle? then Partial({}, None) else r.part }

  ghost predicate Records(single: bool, r: Receiver, i: Input)
    requires i.Arrives?
  {
    single && i.rb.Some? && i.rb.value.num !in Part(r).got
  }

  ghost function Follow(cap: nat, single: bool, t: Tracked, i: Input): Tracked
  {
    if i.Expires? then
      if t.r.Receiving? && t.r.done then Tracked(Idle, [], t.memory) else t
    else
      var r := Handled(cap, single, t.r, i).0;
      if r.Idle? then Tracked(Idle, [], t.memory)
      else if Records(single, t.r, i) then
        var b := i.rb.value;
        Tracked(r, t.recs + [Rec(b.num, b.num * Chunk(b.szx), i.payload)],
                if Part(t.r).body.None? then i.memory else t.memory)
      else t.(r := r)
  }

  ghost function FollowAll(cap: nat, single: bool, t: Tracked, inputs: seq<Input>): Tracked
    decreases |inputs|
  {
    if inputs == [] then t
    else Follow(cap, single, FollowAll(cap, single, t, inputs[..|inputs| - 1]), inputs[|inputs| - 1])
  }

  // ----- what the buffer holds -----

  /** The byte last received for position `i`; an empty payload throws away everything before it. */
  ghost function ByteAt(recs: seq<Rec>, i: nat): Option<byte>
    decreases |recs|
  {
    if recs == [] then None
    else
      var x := recs[|recs| - 1];
      if x.payload == [] then None
      else if x.off <= i < x.off + |x.payload| then Some(x.payload[i - x.off])
      else ByteAt(recs[..|recs| - 1], i)
  }

  /** That byte, or what the memory held. */
  ghost function ByteOr(recs: seq<Rec>, i: nat, memory: Memory): byte
  {
    if ByteAt(recs, i).Some? then ByteAt(recs, i).value else memory(i)
  }

  ghost function Numbers(recs: seq<Rec>): set<nat>
    decreases |recs|
  {
    if recs == [] then {} else Numbers(recs[..|recs| - 1]) + {recs[|recs| - 1].num}
  }

  /** No block since the entry was made, or since the last empty payload, or no Size1. */
  ghost predicate NoBuffer(recs: seq<Rec>, total: nat)
  {
    recs == [] || recs[|recs| - 1].payload == [] || total == 0
  }

  ghost predicate Accounted(p: Partial, total: nat, recs: seq<Rec>, memory: Memory)
  {
    && p.got == Numbers(recs)
    && (p.body.None? <==> NoBuffer(recs, total))
    && (p.body.Some? ==>
          |p.body.value| >= total && forall i: nat :: i < total ==> p.body.value[i] == ByteOr(recs, i, memory))
  }

  /** Every byte of the buffer, up to the total, is accounted for. */
  ghost predicate Known(t: Tracked)
  {
    if t.r.Idle? then t.recs == [] else Accounted(t.r.part, t.r.total, t.recs, t.memory)
  }

  lemma {:induction false} OneMoreByte(recs: seq<Rec>, x: Rec, i: nat)
    ensures ByteAt(recs + [x], i) ==
            if x.payload == [] then None
            else if x.off <= i < x.off + |x.payload| then Some(x.payload[i - x.off]) else ByteAt(recs, i)
    ensures Numbers(recs + [x]) == Numbers(recs) + {x.num}
  {
    assert (recs + [x])[..|recs|] == recs;
  }

  /** One write: the new bytes are the payload's, the others stay or are what new memory holds. */
  lemma {:induction false} WriteByte(
    p: Partial, total: nat, recs: seq<Rec>, memory: Memory, x: Rec, added: Memory, i: nat)
    requires Accounted(p, total, recs, memory) && x.num !in p.got && x.payload != [] && i < total
    ensures var q := Recorded(p, x.num, x.payload, x.off, total, added);
            && q.body.Some? && |q.body.value| >= total
            && q.body.value[i] == ByteOr(recs + [x], i, if p.body.None? then added else memory)
  {
    OneMoreByte(recs, x, i);
  }

  lemma {:induction false} RecordAccounts(p: Partial, total: nat, recs: seq<Rec>, memory: Memory, x: Rec, added: Memory)
    requires Accounted(p, total, recs, memory) && x.num !in p.got
    ensures Accounted(Recorded(p, x.num, x.payload, x.off, total, added), total, recs + [x],
                      if p.body.None? then added else memory)
  {
    OneMoreByte(recs, x, 0);
    if x.payload != [] {
      forall i: nat | i < total
        ensures var q := Recorded(p, x.num, x.payload, x.off, total, added);
                && q.body.Some? && |q.body.value| >= total
                && q.body.value[i] == ByteOr(recs + [x], i, if p.body.None? then added else memory)
      {
        WriteByte(p, total, recs, memory, x, added, i);
      }
    }
  }

  /** Every request, whatever it carries, keeps the account. */
  lemma {:induction false} FollowKeepsKnown(cap: nat, single: bool, t: Tracked, i: Input)
    requires Known(t)
    ensures Known(Follow(cap, single, t, i))
  {
    if i.Arrives? && Handled(cap, single, t.r, i).0.Receiving? {
      PartAfter(cap, single, t.r, i);
      if Records(single, t.r, i) {
        var b, total := i.rb.value, Total(t.r, i);
        RecordAccounts(Part(t.r), total, t.recs, t.memory, Rec(b.num, b.num * Chunk(b.szx), i.payload), i.memory);
      }
    }
  }

  ghost function Total(r: Receiver, i: Input): nat
    requires i.Arrives?
  {
    if r.Idle? then i.size1 else r.total
  }

  /** If the entry is there afterwards, the block was added to it or nothing changed in it. */
  lemma {:induction false} PartAfter(cap: nat, single: bool, r: Receiver, i: Input)
    requires i.Arrives? && Handled(cap, single, r, i).0.Receiving?
    ensures var q := Handled(cap, single, r, i).0;
            && q.total == Total(r, i)
            && q.part == if !Records(single, r, i) then Part(r)
                         else
                           var b := i.rb.value;
                           Recorded(Part(r), b.num, i.payload, b.num * Chunk(b.szx), Total(r, i), i.memory)
  {
  }

  lemma {:induction false} AlwaysKnown(cap: nat, single: bool, inputs: seq<Input>, memory: Memory)
    ensures Known(FollowAll(cap, single, Tracked(Idle, [], memory), inputs))
    decreases |inputs|
  {
    if inputs != [] {
      var before := inputs[..|inputs| - 1];
      AlwaysKnown(cap, single, before, memory);
      FollowKeepsKnown(cap, single, FollowAll(cap, single, Tracked(Idle, [], memory), before), inputs[|inputs| - 1]);
    }
  }

  // ----- what the handler is given -----

  /** After any requests, each byte of a delivered body is the one last received for its place, or memory
      that was never written. */
  lemma {:induction false} DeliveredBytes(cap: nat, single: bool, inputs: seq<Input>, memory: Memory, i: Input)
    requires i.Arrives?
    ensures var t := FollowAll(cap, single, Tracked(Idle, [], memory), inputs);
            var call := Handled(cap, single, t.r, i).2;
            var u := Follow(cap, single, t, i);
            call.WholeBody? ==>
              && u.r.Receiving? && call.length == u.r.total <= |call.body|
              && forall k: nat :: k < call.length ==> call.body[k] == ByteOr(u.recs, k, u.memory)
  {
    var t := FollowAll(cap, single, Tracked(Idle, [], memory), inputs);
    AlwaysKnown(cap, single, inputs, memory);
    FollowKeepsKnown(cap, single, t, i);
  }

  /** After any requests, a request makes the server follow a null pointer exactly if it repeats a recorded
      block of an entry that is complete for its size but has no buffer: there was no Size1, or the payload
      recorded last was empty. */
  lemma {:induction false} NullDereferencedIff(cap: nat, single: bool, inputs: seq<Input>, memory: Memory, i: Input)
    requires i.Arrives?
    ensures var t := FollowAll(cap, single, Tracked(Idle, [], memory), inputs);
            Handled(cap, single, t.r, i).2 == NullDereference <==>
            && single && i.rb.Some? && t.r.Receiving? && i.fmt == t.r.fmt
            && i.rb.value.num in Numbers(t.recs)
            && (t.r.total == 0 || t.recs[|t.recs| - 1].payload == [])
            && Complete(Numbers(t.recs), Expected(t.r.total, Chunk(i.rb.value.szx)))
  {
    AlwaysKnown(cap, single, inputs, memory);
  }

  /** Block 0 with M set and no Size1, sent twice. */
  lemma {:induction false} NoSize1Twice(cap: nat, szx: nat, payload: seq<byte>, memory: Memory)
    requires cap >= 2
    ensures var i := Arrives(0, Some(Block(0, true, szx)), 0, payload, memory, 2);
            Handled(cap, true, Handled(cap, true, Idle, i).0, i).2 == NullDereference
  {
    NextIsAccepted(0, cap);
    var i := Arrives(0, Some(Block(0, true, szx)), 0, payload, memory, 2);
    var r := Handled(cap, true, Idle, i).0;
    assert r.part.got == {0} == Prefix(1);
    assert Complete(Prefix(1), Expected(0, Chunk(szx))) by { NoBlocks(Chunk(szx)); }
  }

  lemma {:induction false} NoBlocks(c: nat)
    requires c > 0
    ensures Expected(0, c) == 0
  {
    assert (c - 1) % WORD <= c - 1;
  }

  // ----- when the handler gets only what was received -----

  /** The payload recorded for block `j` reaches the end of its window, and nothing has thrown it away. */
  ghost predicate Fills(recs: seq<Rec>, j: nat, c: nat, total: nat)
  {
    exists x :: 0 <= x < |recs| && recs[x].num == j && Min(c, total - j * c) <= |recs[x].payload| && Kept(recs, x)
  }

  ghost predicate Kept(recs: seq<Rec>, x: nat)
  {
    forall y :: x <= y < |recs| ==> recs[y].payload != []
  }

  ghost predicate CoveredBy(recs: seq<Rec>, x: nat, i: nat)
    requires x < |recs|
  {
    recs[x].off <= i < recs[x].off + |recs[x].payload| && Kept(recs, x)
  }

  /** A byte is known exactly if some payload that was kept covers it. */
  lemma {:induction false} ByteAtIff(recs: seq<Rec>, i: nat)
    ensures ByteAt(recs, i).Some? <==> exists x :: 0 <= x < |recs| && CoveredBy(recs, x, i)
    decreases |recs|
  {
    if recs != [] {
      var f, last := recs[..|recs| - 1], |recs| - 1;
      ByteAtIff(f, i);
      if recs[last].payload != [] {
        forall x | 0 <= x < last
          ensures CoveredBy(f, x, i) <==> CoveredBy(recs, x, i)
        {
          assert Kept(recs, x) ==> Kept(f, x) by { assert forall y :: x <= y < |f| ==> f[y] == recs[y]; }
          assert Kept(f, x) ==> Kept(recs, x) by { assert forall y :: x <= y < |f| ==> recs[y] == f[y]; }
        }
        assert CoveredBy(recs, last, i) <==> recs[last].off <= i < recs[last].off + |recs[last].payload|;
      }
    }
  }

  /** The handler's view of the body is what was received for each place. */
  ghost predicate OnlyReceived(body: seq<byte>, length: nat, recs: seq<Rec>)
  {
    length <= |body| && forall k: nat :: k < length ==> ByteAt(recs, k) == Some(body[k])
  }

  ghost predicate CoveredPlace(recs: seq<Rec>, i: nat)
  {
    exists x :: 0 <= x < |recs| && CoveredBy(recs, x, i)
  }

  /** After any requests, in any sizes and with payloads of any length, a body delivered next holds only
      received bytes exactly if each of its places is covered by a payload that was not thrown away. */
  lemma {:induction false} OnlyReceivedIffCovered(cap: nat, single: bool, inputs: seq<Input>, memory: Memory, i: Input)
    requires i.Arrives?
    ensures var t := FollowAll(cap, single, Tracked(Idle, [], memory), inputs);
            var recs := Follow(cap, single, t, i).recs;
            var call := Handled(cap, single, t.r, i).2;
            call.WholeBody? ==>
              (OnlyReceived(call.body, call.length, recs) <==>
               forall k: nat :: k < call.length ==> CoveredPlace(recs, k))
  {
    var t := FollowAll(cap, single, Tracked(Idle, [], memory), inputs);
    var recs := Follow(cap, single, t, i).recs;
    var call := Handled(cap, single, t.r, i).2;
    DeliveredBytes(cap, single, inputs, memory, i);
    forall k: nat
      ensures ByteAt(recs, k).Some? <==> CoveredPlace(recs, k)
    {
      ByteAtIff(recs, k);
    }
  }

  /** Block 0 of 16 bytes and block 1 of 1024 bytes, Size1 1040: both payloads fill their windows, and bytes 16
      to 1023 of the body are whatever the memory held. */
  lemma {:induction false} MixedSizes(cap: nat, first: seq<byte>, last: seq<byte>, memory: Memory, unused: Memory)
    requires cap >= 2 && |first| == |last| == 16
    ensures var i0 := Arrives(0, Some(Block(0, true, 0)), 1040, first, memory, 2);
            var i1 := Arrives(0, Some(Block(1, false, 6)), 1040, last, unused, 2);
            var call := Handled(cap, true, Handled(cap, true, Idle, i0).0, i1).2;
            && call.WholeBody? && call.length == 1040 == |call.body|
            && forall k: nat :: 16 <= k < 1024 ==> call.body[k] == memory(k)
  {
    var i0 := Arrives(0, Some(Block(0, true, 0)), 1040, first, memory, 2);
    var i1 := Arrives(0, Some(Block(1, false, 6)), 1040, last, unused, 2);
    NextIsAccepted(0, cap);
    NextIsAccepted(1, cap);
    assert Chunk(0) == 16 by { assert Pow2(4) == 16; }
    assert Chunk(6) == 1024 by { Pow2Add(5, 5); assert Pow2(5) == 32; }
    var r0 := Handled(cap, true, Idle, i0).0;
    assert r0.Receiving? && r0.total == 1040 && r0.part == AfterFirst(first, memory) by { NotYetComplete(1, 65); }
    assert {0} + {1} == Prefix(2) && 1 !in {0};
    assert Complete(Prefix(2), 2);
  }

  ghost function AfterFirst(first: seq<byte>, memory: Memory): Partial
    requires |first| == 16
  {
    Partial({0}, Some(Overwrite(NewBinary(1040, memory), 0, first)))
  }

  /** All recorded blocks have one size and none is longer than it. */
  ghost predicate OneSize(recs: seq<Rec>, c: nat)
  {
    forall x :: 0 <= x < |recs| ==> recs[x].off == recs[x].num * c && |recs[x].payload| <= c
  }

  /** Every byte up to the total was received. */
  ghost predicate AllReceived(recs: seq<Rec>, total: nat)
  {
    forall i: nat :: i < total ==> ByteAt(recs, i).Some?
  }

  ghost predicate AllFilled(recs: seq<Rec>, c: nat, total: nat)
  {
    forall j: nat :: j * c < total ==> Fills(recs, j, c, total)
  }

  lemma {:induction false} ReceivedIffFilled(recs: seq<Rec>, c: nat, total: nat)
    requires c > 0 && OneSize(recs, c)
    ensures AllReceived(recs, total) <==> AllFilled(recs, c, total)
  {
    if AllReceived(recs, total) {
      forall j: nat | j * c < total
        ensures Fills(recs, j, c, total)
      {
        LastByteFills(recs, c, total, j);
      }
    }
    if AllFilled(recs, c, total) {
      forall i: nat | i < total
        ensures ByteAt(recs, i).Some?
      {
        ByteInBlock(i, c, i / c);
        FilledCovers(recs, c, total, i / c, i);
      }
    }
  }

  lemma {:induction false} LastByteFills(recs: seq<Rec>, c: nat, total: nat, j: nat)
    requires c > 0 && OneSize(recs, c) && j * c < total
    requires AllReceived(recs, total)
    ensures Fills(recs, j, c, total)
  {
    var i: nat := Min(j * c + c, total) - 1;
    assert ByteAt(recs, i).Some?;
    ByteAtIff(recs, i);
    var x :| 0 <= x < |recs| && CoveredBy(recs, x, i);
    ByteInBlock(i, c, j);
    ByteInBlock(i, c, recs[x].num);
  }

  lemma {:induction false} FilledCovers(recs: seq<Rec>, c: nat, total: nat, j: nat, i: nat)
    requires c > 0 && OneSize(recs, c) && j * c <= i < j * c + c && i < total && Fills(recs, j, c, total)
    ensures ByteAt(recs, i).Some?
  {
    var x :| 0 <= x < |recs| && recs[x].num == j && Min(c, total - j * c) <= |recs[x].payload| && Kept(recs, x);
    assert CoveredBy(recs, x, i);
    ByteAtIff(recs, i);
  }

  ghost predicate OfSize(i: Input, szx: nat)
  {
    i.Arrives? && i.rb.Some? ==> i.rb.value.szx == szx && |i.payload| <= Chunk(szx)
  }

  lemma {:induction false} StaysOneSize(cap: nat, single: bool, inputs: seq<Input>, memory: Memory, szx: nat)
    requires forall k :: 0 <= k < |inputs| ==> OfSize(inputs[k], szx)
    ensures OneSize(FollowAll(cap, single, Tracked(Idle, [], memory), inputs).recs, Chunk(szx))
    decreases |inputs|
  {
    if inputs != [] {
      StaysOneSize(cap, single, inputs[..|inputs| - 1], memory, szx);
      assert OfSize(inputs[|inputs| - 1], szx);
    }
  }

  /** After any requests in one block size, a body delivered next holds only received bytes exactly if every
      recorded payload fills its window up to the total. */
  lemma {:induction false} OnlyReceivedIffFilled(cap: nat, inputs: seq<Input>, memory: Memory, i: Input, szx: nat)
    requires i.Arrives? && OfSize(i, szx) && forall k :: 0 <= k < |inputs| ==> OfSize(inputs[k], szx)
    ensures var t := FollowAll(cap, true, Tracked(Idle, [], memory), inputs);
            var recs := Follow(cap, true, t, i).recs;
            var call := Handled(cap, true, t.r, i).2;
            call.WholeBody? ==>
              (OnlyReceived(call.body, call.length, recs) <==> AllFilled(recs, Chunk(szx), call.length))
  {
    var t := FollowAll(cap, true, Tracked(Idle, [], memory), inputs);
    var recs := Follow(cap, true, t, i).recs;
    var call := Handled(cap, true, t.r, i).2;
    StaysOneSize(cap, true, inputs, memory, szx);
    DeliveredBytes(cap, true, inputs, memory, i);
    if call.WholeBody? {
      ReceivedIffFilled(recs, Chunk(szx), call.length);
    }
  }

  /** Block 0 of 1024 bytes, with M set, Size1 1024 and one byte of payload: the other 1023 bytes that the
      handler gets are whatever the memory held. */
  lemma {:induction false} ShortPayload(cap: nat, v: byte, memory: Memory)
    requires cap >= 2
    ensures var call := Handled(cap, true, Idle, Arrives(0, Some(Block(0, true, 6)), 1024, [v], memory, 2)).2;
            && call.WholeBody? && call.length == 1024 == |call.body| && call.body[0] == v
            && forall k: nat :: 1 <= k < 1024 ==> call.body[k] == memory(k)
  {
    NextIsAccepted(0, cap);
    assert Chunk(6) == 1024 by { Pow2Add(5, 5); assert Pow2(5) == 32; }
    assert {} + {0} == {0} == Prefix(1);
    assert Complete(Prefix(1), 1);
    var part := Recorded(Partial({}, None), 0, [v], 0, 1024, memory);
    assert NewBinary(1024, memory)[0] == memory(0);
    assert part == Partial({0}, Some(Overwrite(NewBinary(1024, memory), 0, [v])));
  }
}
