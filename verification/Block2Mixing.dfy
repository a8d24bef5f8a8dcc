/** Representations are not mixed even if blocks reach the client in any order (src/block.c:1659-1836). */
module Block2Mixing {
  import opened Common
  import opened BlockOption
  import opened RecBlocks
  import opened Reassembly
  import opened Block2Client
  import opened Block2Net

  /** A response for the client's current token, what new memory holds and the next token. */
  datatype Input = Input(rsp: Rsp, memory: Memory, newToken: nat)

  /** Block `b` of representation `e`, in the one size used throughout. */
  ghost predicate HonestInput(x: Setting, i: Input, szx: nat)
  {
    && i.rsp.cls == 2 && i.rsp.block.Some? && i.rsp.etag.Some? && i.rsp.block.value.szx == szx
    && Honest(x, i.rsp, i.rsp.etag.value, i.rsp.block.value)
  }

  ghost function Outcome1(x: Setting, cl: Client, i: Input): Outcome
  {
    OnContent(x.cap, cl, i.rsp, i.rsp.block, i.newToken, i.memory)
  }

  ghost function Feed(x: Setting, cl: Client, inputs: seq<Input>): Client
    decreases |inputs|
  {
    if inputs == [] then cl else Feed(x, Outcome1(x, cl, inputs[0]).0, inputs[1..])
  }

  /** Every byte of every recorded block comes from the representation whose ETag the client holds. */
  ghost predicate Unmixed(x: Setting, cl: Client, szx: nat)
  {
    !cl.initial ==> cl.etag.Some? && Holds(cl.part, x.store(cl.etag.value), Chunk(szx))
  }

  /** The invariant that carries it. */
  ghost predicate Clean(x: Setting, cl: Client, szx: nat)
  {
    && cl.single
    && (!cl.initial ==>
          && cl.etag.Some? && cl.etagSet && cl.fmt == x.fmt
          && Sound(cl.part, x.store(cl.etag.value), Chunk(szx)))
  }

  /** A body begins with no buffer left over, or one that is harmless for its length. */
  ghost predicate StartsSafely(x: Setting, cl: Client, i: Input, szx: nat)
    requires i.rsp.etag.Some?
  {
    cl.initial ==> SafeStart(cl.part.body, |x.store(i.rsp.etag.value)|, Chunk(szx))
  }

  /** What is delivered is a prefix of one representation, and all of it exactly when the block that
      completed it was the last one. */
  ghost predicate FromOne(x: Setting, call: Call, e: nat, last: bool)
  {
    call.Body? ==>
      && call.body.Some? && call.length <= |x.store(e)| && call.length <= |call.body.value|
      && call.body.value[..call.length] == x.store(e)[..call.length]
      && (call.length == |x.store(e)| <==> last)
  }

  lemma {:induction false} InputStep(x: Setting, cl: Client, i: Input, szx: nat)
    requires x.Valid() && Clean(x, cl, szx) && HonestInput(x, i, szx) && StartsSafely(x, cl, i, szx)
    ensures Clean(x, Outcome1(x, cl, i).0, szx) && DeliversOne(x, cl, i, szx)
  {
    var b, e, c := i.rsp.block.value, i.rsp.etag.value, Chunk(szx);
    var p := Begin(cl, i.rsp);
    if p.etag == Some(e) && b.num !in p.part.got && !Refused(p.part.got, b.num, x.cap) {
      var a := Arrival(b.num, i.memory);
      AbsorbKeepsSound(p.part, a, x.store(e), c);
      var part := Absorb(p.part, a, x.store(e), c);
      assert Size(i.rsp, b) == |x.store(e)|;
      Unfolded(p, i.rsp, b, i.newToken, i.memory, part.body.value);
      RecordedInput(x, p.(part := part), i.rsp, i.newToken, szx, e, b);
    }
  }

  lemma {:induction false} RecordedInput(x: Setting, q: Client, r: Rsp, newToken: nat, szx: nat, e: nat, b: Block)
    requires b.szx == szx && !q.initial && Clean(x, q, szx) && q.etag == Some(e)
    requires q.part.body.Some? && q.part.got != {}
    requires Size(r, b) == |x.store(e)| && b.num * Chunk(szx) < |x.store(e)|
    requires r.payload == Window(x.store(e), b.num * Chunk(szx), Chunk(szx))
    ensures var (q', _, call) := AfterRecording(q, r, b, newToken);
            && Clean(x, q', szx)
            && (call.Some? ==> FromOne(x, call.value, e, b.num * Chunk(szx) + Chunk(szx) >= |x.store(e)|))
  {
    var o := AfterRecording(q, r, b, newToken);
    if Complete(q.part.got, BlockCount(|x.store(e)|, Chunk(szx))) {
      assert o.0.initial && o.2 == Some(Body(q.part.body, b.num * Chunk(szx) + |r.payload|));
      CompletedInput(x, q.part, e, b.num * Chunk(szx), Chunk(szx));
    } else {
      assert o.2 == None && o.0 == q.(token := o.0.token);
    }
  }

  lemma {:induction false} CompletedInput(x: Setting, part: Partial, e: nat, off: nat, c: nat)
    requires c > 0 && part.body.Some? && Covered(part.got, part.body.value, x.store(e), c)
    requires Complete(part.got, BlockCount(|x.store(e)|, c)) && off < |x.store(e)|
    ensures FromOne(x, Body(part.body, off + |Window(x.store(e), off, c)|), e, off + c >= |x.store(e)|)
  {
    CompleteBody(part.got, part.body.value, x.store(e), c);
    WindowLength(x.store(e), off, c);
    PrefixOfWhole(part.body.value, x.store(e), Min(off + c, |x.store(e)|));
  }

  lemma {:induction false} PrefixOfWhole(body: seq<byte>, data: seq<byte>, n: nat)
    requires |body| >= |data| >= n && body[..|data|] == data
    ensures body[..n] == data[..n]
  {
    assert body[..|data|][..n] == body[..n];
  }

  ghost predicate SafeRun(x: Setting, cl: Client, inputs: seq<Input>, szx: nat)
    decreases |inputs|
  {
    inputs == [] ||
    (&& HonestInput(x, inputs[0], szx) && StartsSafely(x, cl, inputs[0], szx)
     && SafeRun(x, Outcome1(x, cl, inputs[0]).0, inputs[1..], szx))
  }

  /** Every single body delivered along the run is a prefix of one representation, and all of it exactly
      when the block that completed it was the last one. */
  ghost predicate DeliversFromOne(x: Setting, cl: Client, inputs: seq<Input>, szx: nat)
    decreases |inputs|
  {
    inputs == [] ||
    (DeliversOne(x, cl, inputs[0], szx) && DeliversFromOne(x, Outcome1(x, cl, inputs[0]).0, inputs[1..], szx))
  }

  ghost predicate DeliversOne(x: Setting, cl: Client, i: Input, szx: nat)
  {
    i.rsp.etag.Some? && i.rsp.block.Some? &&
    var call, e := Outcome1(x, cl, i).2, i.rsp.etag.value;
    call.Some? ==>
      FromOne(x, call.value, e, i.rsp.block.value.num * Chunk(szx) + Chunk(szx) >= |x.store(e)|)
  }

  /** In every run of honest responses, in any order and with any changes of representation, in which each
      body starts safely, recorded bytes are never of two representations, and neither is what is delivered. */
  lemma {:induction false} NoMixing(x: Setting, cl: Client, inputs: seq<Input>, szx: nat)
    requires x.Valid() && Clean(x, cl, szx) && SafeRun(x, cl, inputs, szx)
    ensures Clean(x, Feed(x, cl, inputs), szx) && Unmixed(x, Feed(x, cl, inputs), szx)
    ensures DeliversFromOne(x, cl, inputs, szx)
    decreases |inputs|
  {
    if inputs != [] {
      InputStep(x, cl, inputs[0], szx);
      NoMixing(x, Outcome1(x, cl, inputs[0]).0, inputs[1..], szx);
    }
  }

  /** No block that is recorded already and has M clear arrives again while its body is incomplete. */
  ghost predicate NoRepeatedFinal(x: Setting, cl: Client, inputs: seq<Input>, szx: nat)
    decreases |inputs|
  {
    inputs == [] ||
    (&& HonestInput(x, inputs[0], szx)
     && !(inputs[0].rsp.block.value.num in Begin(cl, inputs[0].rsp).part.got && !inputs[0].rsp.block.value.m)
     && NoRepeatedFinal(x, Outcome1(x, cl, inputs[0]).0, inputs[1..], szx))
  }

  /** Such runs start every body safely. */
  lemma {:induction false} NoRepeatedFinalIsSafe(x: Setting, cl: Client, inputs: seq<Input>, szx: nat)
    requires x.Valid() && Clean(x, cl, szx) && NoRepeatedFinal(x, cl, inputs, szx)
    requires cl.initial ==> cl.part.body.None?
    ensures SafeRun(x, cl, inputs, szx)
    decreases |inputs|
  {
    if inputs != [] {
      StartsWithoutBuffer(x, cl, inputs[0], szx);
      InputStep(x, cl, inputs[0], szx);
      NoRepeatedFinalIsSafe(x, Outcome1(x, cl, inputs[0]).0, inputs[1..], szx);
    }
  }

  /** A body always starts without a buffer as long as no recorded final block is repeated. */
  lemma {:induction false} StartsWithoutBuffer(x: Setting, cl: Client, i: Input, szx: nat)
    requires Clean(x, cl, szx) && HonestInput(x, i, szx) && (cl.initial ==> cl.part.body.None?)
    requires !(i.rsp.block.value.num in Begin(cl, i.rsp).part.got && !i.rsp.block.value.m)
    ensures StartsSafely(x, cl, i, szx)
    ensures var q := Outcome1(x, cl, i).0; q.initial ==> q.part.body.None?
  {
    var b, p := i.rsp.block.value, Begin(cl, i.rsp);
    if p.etag != i.rsp.etag {
      assert Outcome1(x, cl, i).0.part.body.None?;
    } else if b.num in p.part.got || Refused(p.part.got, b.num, x.cap) {
      assert Outcome1(x, cl, i).0 == p;
    } else {
      assert i.rsp.payload != [];
      DeliveryFreesBuffer(p.(part := p.part.(got := p.part.got + {b.num})), i.rsp, b, i.newToken, i.memory);
    }
  }

  lemma {:induction false} DeliveryFreesBuffer(p: Client, r: Rsp, b: Block, newToken: nat, memory: Memory)
    requires !p.initial && p.single && r.payload != []
    ensures var q := OnNewBlock(p, r, b, newToken, memory).0; q.initial ==> q.part.body.None?
  {
    var body := BuildBody(p.part.body, r.payload, b.num * Chunk(b.szx), Size(r, b), memory);
    assert body.Some?;
    assert OnNewBlock(p, r, b, newToken, memory) == AfterRecording(p.(part := p.part.(body := body)), r, b, newToken);
  }

  // ----- the start condition is exact -----

  function BlockRsp(x: Setting, e: nat, k: nat, szx: nat): Rsp
  {
    var c := Chunk(szx);
    Rsp(2, Some(Block(k, k * c + c < |x.store(e)|, szx)), |x.store(e)|, Some(e), x.fmt, Window(x.store(e), k * c, c))
  }

  /** Inputs that are all blocks of one representation. */
  ghost predicate OnlyOf(x: Setting, e: nat, inputs: seq<Input>, szx: nat)
  {
    forall j :: 0 <= j < |inputs| ==> HonestInput(x, inputs[j], szx) && inputs[j].rsp.etag == Some(e)
  }

  /** From a buffer that is too small for a representation of more than two blocks, block 1 and then
      block 0 leave block 1 recorded but not held. */
  lemma {:induction false} UnsafeStartMixes(x: Setting, cl: Client, e: nat, szx: nat, memory: Memory)
    requires x.Valid() && szx < 8 && cl.single && cl.initial && !SafeStart(cl.part.body, |x.store(e)|, Chunk(szx))
    ensures var run := [Input(BlockRsp(x, e, 1, szx), memory, 0), Input(BlockRsp(x, e, 0, szx), memory, 0)];
            OnlyOf(x, e, run, szx) && !Unmixed(x, Feed(x, cl, run), szx)
  {
    var c, data := Chunk(szx), x.store(e);
    var i1, i0 := Input(BlockRsp(x, e, 1, szx), memory, 0), Input(BlockRsp(x, e, 0, szx), memory, 0);
    assert 1 * c == c && 0 * c == 0;
    BlockInside(|data|, c, 2);
    var cl1 := Outcome1(x, cl, i1).0;
    FirstOfTwo(x, cl, i1, e, szx);
    var cl2 := Outcome1(x, cl1, i0).0;
    SecondOfTwo(x, cl1, i0, e, szx);
    var run := [i1, i0];
    assert run[1..] == [i0] && run[1..][1..] == [];
    assert Feed(x, cl2, []) == cl2;
    assert Feed(x, cl, run) == cl2;
    assert BlockOf(c, c) == 1;
  }

  lemma {:induction false} FirstOfTwo(x: Setting, cl: Client, i: Input, e: nat, szx: nat)
    requires x.Valid() && szx < 8 && cl.single && cl.initial && !SafeStart(cl.part.body, |x.store(e)|, Chunk(szx))
    requires i.rsp == BlockRsp(x, e, 1, szx)
    ensures var q := Outcome1(x, cl, i).0;
            && !q.initial && q.single && q.etag == Some(e) && q.etagSet && q.fmt == x.fmt
            && q.part.got == {1} && q.part.body.Some? && |q.part.body.value| == 2 * Chunk(szx)
  {
    var c := Chunk(szx);
    assert 1 * c == c;
    assert Starts({}) == {};
    assert 0 !in {1} && 0 in Prefix(1);
    NoPrefix({1}, 1);
  }

  lemma {:induction false} SecondOfTwo(x: Setting, cl: Client, i: Input, e: nat, szx: nat)
    requires x.Valid() && szx < 8 && !cl.initial && cl.single && cl.etag == Some(e) && cl.etagSet && cl.fmt == x.fmt
    requires cl.part.got == {1} && cl.part.body.Some? && |cl.part.body.value| == 2 * Chunk(szx) < |x.store(e)|
    requires i.rsp == BlockRsp(x, e, 0, szx)
    ensures var q := Outcome1(x, cl, i).0;
            && !q.initial && q.etag == Some(e) && q.part.got == {0, 1}
            && q.part.body.Some? && |q.part.body.value| == Chunk(szx)
  {
    var c := Chunk(szx);
    assert 0 * c == 0;
    assert !Isolated({1}, 0) by { assert 0 + 1 in {1}; }
    assert {1} + {0} == {0, 1} == Prefix(2);
    BlockInside(|x.store(e)|, c, 2);
    NotYetComplete(2, BlockCount(|x.store(e)|, c));
  }

  lemma {:induction false} NoPrefix(b: set<nat>, total: nat)
    requires 0 !in b
    ensures forall t: nat :: !Complete(b, t)
  {
    assert forall k: nat :: k > 0 ==> 0 in Prefix(k);
  }

  lemma {:induction false} SoundIsSafe(p: Partial, data: seq<byte>, c: nat)
    requires c > 0 && Sound(p, data, c)
    ensures SafeStart(p.body, |data|, c)
  {
  }

  /** What keeps blocks of one representation safe, across its own restarts. */
  lemma {:induction false} OneRepresentation(x: Setting, cl: Client, e: nat, inputs: seq<Input>, szx: nat)
    requires x.Valid() && Clean(x, cl, szx) && OnlyOf(x, e, inputs, szx)
    requires SafeStart(cl.part.body, |x.store(e)|, Chunk(szx)) && (!cl.initial ==> cl.etag == Some(e))
    ensures Unmixed(x, Feed(x, cl, inputs), szx)
    decreases |inputs|
  {
    if inputs != [] {
      InputStep(x, cl, inputs[0], szx);
      StaysSafe(x, cl, inputs[0], e, szx);
      OneRepresentation(x, Outcome1(x, cl, inputs[0]).0, e, inputs[1..], szx);
    }
  }

  lemma {:induction false} StaysSafe(x: Setting, cl: Client, i: Input, e: nat, szx: nat)
    requires x.Valid() && Clean(x, cl, szx) && HonestInput(x, i, szx) && i.rsp.etag == Some(e)
    requires SafeStart(cl.part.body, |x.store(e)|, Chunk(szx)) && (!cl.initial ==> cl.etag == Some(e))
    ensures var q := Outcome1(x, cl, i).0;
            SafeStart(q.part.body, |x.store(e)|, Chunk(szx)) && (!q.initial ==> q.etag == Some(e))
  {
    var p, b, c := Begin(cl, i.rsp), i.rsp.block.value, Chunk(szx);
    if b.num !in p.part.got {
      var a := Arrival(b.num, i.memory);
      AbsorbKeepsSound(p.part, a, x.store(e), c);
      SoundIsSafe(Absorb(p.part, a, x.store(e), c), x.store(e), c);
    }
  }

  /** At the start of a body: blocks of one representation, in whatever order, leave only its own bytes
      recorded exactly if the buffer the client still holds is safe for its length. */
  lemma {:induction false} UnmixedIffSafeStart(x: Setting, cl: Client, e: nat, szx: nat)
    requires x.Valid() && szx < 8 && cl.single && cl.initial
    ensures SafeStart(cl.part.body, |x.store(e)|, Chunk(szx)) <==>
            forall inputs :: OnlyOf(x, e, inputs, szx) ==> Unmixed(x, Feed(x, cl, inputs), szx)
  {
    if SafeStart(cl.part.body, |x.store(e)|, Chunk(szx)) {
      forall inputs | OnlyOf(x, e, inputs, szx)
        ensures Unmixed(x, Feed(x, cl, inputs), szx)
      {
        OneRepresentation(x, cl, e, inputs, szx);
      }
    } else {
      UnsafeStartMixes(x, cl, e, szx, _ => 0);
    }
  }

  /** The unsafe start is reachable: the last block of a body, received and repeated before the others,
      leaves its buffer behind for the next representation. */
  lemma {:induction false} RepeatedFinalBlockKeepsBuffer(
    x: Setting, cl: Client, e: nat, k: nat, szx: nat, memory: Memory)
    requires x.Valid() && szx < 8 && cl.single && cl.initial && cl.part.body == None
    requires 0 < k <= MAX_NUM && k * Chunk(szx) < |x.store(e)| <= k * Chunk(szx) + Chunk(szx)
    ensures var i := Input(BlockRsp(x, e, k, szx), memory, 0);
            var q := Feed(x, cl, [i, i]);
            HonestInput(x, i, szx) && q.initial && q.part.body.Some? && |q.part.body.value| == |x.store(e)|
  {
    var i := Input(BlockRsp(x, e, k, szx), memory, 0);
    var cl1 := Outcome1(x, cl, i).0;
    assert Starts({}) == {};
    NoPrefix({k}, 1);
    assert !cl1.initial && cl1.part.got == {k} && cl1.part.body.Some?;
    var cl2 := Outcome1(x, cl1, i).0;
    assert [i, i][1..] == [i] && [i][1..] == [];
    assert Feed(x, cl2, []) == cl2;
    assert Feed(x, cl1, [i]) == cl2;
  }

  /** Blocks 1 and 0 of a body of two blocks, in that order: the body is complete with block 0, and the
      application is told the length of that block's end. */
  lemma {:induction false} FirstBlockLastTooShort(x: Setting, cl: Client, e: nat, szx: nat, memory: Memory)
    requires x.Valid() && szx < 8 && cl.single && cl.initial && cl.part.body == None
    requires Chunk(szx) < |x.store(e)| <= 2 * Chunk(szx)
    ensures var i1, i0 := Input(BlockRsp(x, e, 1, szx), memory, 0), Input(BlockRsp(x, e, 0, szx), memory, 0);
            var call := Outcome1(x, Outcome1(x, cl, i1).0, i0).2;
            && HonestInput(x, i1, szx) && HonestInput(x, i0, szx)
            && call.Some? && call.value.Body? && call.value.length == Chunk(szx) < |x.store(e)|
  {
    var c := Chunk(szx);
    assert 0 * c == 0;
    FinalFirst(x, cl, e, szx, memory);
    assert !Isolated({1}, 0) by { assert 0 + 1 in {1}; }
    assert {1} + {0} == Prefix(2);
    BlockInside(|x.store(e)|, c, 2);
    assert Complete(Prefix(2), BlockCount(|x.store(e)|, c));
  }

  lemma {:induction false} FinalFirst(x: Setting, cl: Client, e: nat, szx: nat, memory: Memory)
    requires x.Valid() && szx < 8 && cl.single && cl.initial && cl.part.body == None
    requires Chunk(szx) < |x.store(e)| <= 2 * Chunk(szx)
    ensures var i1 := Input(BlockRsp(x, e, 1, szx), memory, 0);
            var q := Outcome1(x, cl, i1).0;
            && HonestInput(x, i1, szx)
            && !q.initial && q.single && q.etag == Some(e) && q.etagSet && q.fmt == x.fmt
            && q.part.got == {1} && q.part.body.Some? && |q.part.body.value| == |x.store(e)|
  {
    assert 1 * Chunk(szx) == Chunk(szx);
    assert Starts({}) == {};
    NoPrefix({1}, 1);
  }
}
