/** Putting payloads back together: coap_block_build_body and the buffers under it
    (src/block.c:1544-1583, src/str.c:15-87). */
module Reassembly {
  import opened Common
  import opened RecBlocks

  /** What newly allocated memory happens to hold, by position. */
  type Memory = nat -> byte

  /** coap_new_binary: the buffer is not initialised. */
  function NewBinary(size: nat, memory: Memory): seq<byte> { seq(size, (i: nat) => memory(i)) }

  /** coap_resize_binary: realloc keeps the common prefix; added space is not initialised. */
  function ResizeBinary(b: seq<byte>, size: nat, memory: Memory): (r: seq<byte>)
    ensures |r| == size
    ensures forall i :: 0 <= i < size && i < |b| ==> r[i] == b[i]
  {
    if size <= |b| then b[..size] else b + seq(size - |b|, (i: nat) => memory(|b| + i))
  }

  /** memcpy of `data` to position `offset`. */
  function Overwrite(b: seq<byte>, offset: nat, data: seq<byte>): (r: seq<byte>)
    requires offset + |data| <= |b|
    ensures |r| == |b|
    ensures forall i :: 0 <= i < |b| ==>
              r[i] == if offset <= i < offset + |data| then data[i - offset] else b[i]
  {
    b[..offset] + data + b[offset + |data|..]
  }

  /** coap_block_build_body; an absent payload is an empty sequence. */
  function BuildBody(body: Option<seq<byte>>, data: seq<byte>, offset: nat, total: nat, memory: Memory)
    : Option<seq<byte>>
  {
    if data == [] then None
    else
      var b := if body.None? && total > 0 then Some(NewBinary(total, memory)) else body;
      if b.None? then None
      else if InPlace(b.value, data, offset, total) then Some(Overwrite(b.value, offset, data))
      else Some(Overwrite(ResizeBinary(b.value, offset + |data|, memory), offset, data))
  }

  predicate InPlace(b: seq<byte>, data: seq<byte>, offset: nat, total: nat)
  {
    offset + |data| <= total <= |b|
  }

  /** The same on real buffers: an array for a coap_binary_t, null for a NULL pointer. */
  method BuildBodyInPlace(body: array?<byte>, data: seq<byte>, offset: nat, total: nat)
    returns (r: array?<byte>, ghost memory: Memory)
    modifies if body == null then {} else {body}
    ensures Contents(r) == BuildBody(old(Contents(body)), data, offset, total, memory)
    ensures r != null ==> r == body || fresh(r)
  {
    memory := _ => 0;
    if data == [] {
      return null, memory;
    }
    r := body;
    if r == null && total > 0 {
      r := new byte[total];
      ghost var init := r[..];
      memory := (i: nat) => if i < |init| then init[i] else 0;
      assert init == NewBinary(total, memory);
    }
    if r == null {
      return;
    }
    if offset + |data| <= total && r.Length >= total {
      CopyIn(r, offset, data);
    } else {
      ghost var b := r[..];
      r, memory := Realloc(r, offset + |data|, memory);
      assert body == null ==> b == NewBinary(total, memory);
      CopyIn(r, offset, data);
    }
  }

  ghost function Contents(b: array?<byte>): Option<seq<byte>>
    reads b
  {
    if b == null then None else Some(b[..])
  }

  method CopyIn(b: array<byte>, offset: nat, data: seq<byte>)
    requires offset + |data| <= b.Length
    modifies b
    ensures b[..] == Overwrite(old(b[..]), offset, data)
  {
    forall i | 0 <= i < |data| {
      b[offset + i] := data[i];
    }
    assert forall i :: offset <= i < offset + |data| ==> b[i] == data[i - offset];
  }

  /** realloc; `before` already describes the first |b| bytes if `b` is itself new. */
  method Realloc(b: array<byte>, size: nat, ghost before: Memory) returns (r: array<byte>, ghost memory: Memory)
    ensures fresh(r) && r[..] == ResizeBinary(b[..], size, memory)
    ensures forall i: nat :: i < b.Length ==> memory(i) == before(i)
  {
    r := new byte[size];
    ghost var init, n := r[..], b.Length;
    memory := (i: nat) => if i < n then before(i) else if i < |init| then init[i] else 0;
    forall i | 0 <= i < Min(size, b.Length) {
      r[i] := b[i];
    }
  }

  // ----- one write -----

  /** Bytes already in the buffer survive a write exactly when it is done in place or reaches the end
      of the buffer: a total announced too small can cut off what came before. */
  lemma {:induction false} KeepsEarlierBytes(b: seq<byte>, data: seq<byte>, offset: nat, total: nat, memory: Memory)
    requires data != []
    ensures var r := BuildBody(Some(b), data, offset, total, memory).value;
            (|| InPlace(b, data, offset, total)
             || offset + |data| >= |b|)
            <==>
            (&& |r| >= |b|
             && forall i :: 0 <= i < |b| && !(offset <= i < offset + |data|) ==> r[i] == b[i])
  {
  }

  /** Blocks in order rebuild the body whatever total is announced and whatever buffer they start with. */
  lemma {:induction false} InOrderStep(
    body: Option<seq<byte>>, data: seq<byte>, off: nat, c: nat, total: nat, memory: Memory)
    requires c > 0 && off < |data| && (total > 0 || body.Some?)
    requires off > 0 ==> body.Some? && |body.value| >= off && body.value[..off] == data[..off]
    ensures var r := BuildBody(body, Window(data, off, c), off, total, memory);
            var upto := Min(off + c, |data|);
            r.Some? && |r.value| >= upto && r.value[..upto] == data[..upto]
  {
    var r := BuildBody(body, Window(data, off, c), off, total, memory).value;
    var upto := Min(off + c, |data|);
    assert forall i :: 0 <= i < off ==> data[..off][i] == data[i];
    assert off > 0 ==> forall i :: 0 <= i < off ==> body.value[..off][i] == body.value[i];
    assert forall i :: 0 <= i < upto ==> r[i] == data[i];
  }

  // ----- any order of arrival -----

  function BlockOf(i: nat, c: nat): nat
    requires c > 0
  {
    i / c
  }

  /** Every byte of every recorded block is in the buffer, as it is in the original. */
  ghost predicate Covered(got: set<nat>, body: seq<byte>, data: seq<byte>, c: nat)
    requires c > 0
  {
    forall i :: 0 <= i < |data| && BlockOf(i, c) in got ==> i < |body| && body[i] == data[i]
  }

  /** What a receiver holds: recorded numbers and the buffer. */
  datatype Partial = Partial(got: set<nat>, body: Option<seq<byte>>)

  datatype Arrival = Arrival(num: nat, memory: Memory)

  /** One block of `data` arrives when `total` bytes were announced; a recorded one is not written again
      (src/block.c:1305-1320). */
  ghost function AbsorbAs(p: Partial, a: Arrival, data: seq<byte>, c: nat, total: nat): Partial
    requires c > 0
  {
    if a.num in p.got then p
    else Partial(p.got + {a.num}, BuildBody(p.body, Window(data, a.num * c, c), a.num * c, total, a.memory))
  }

  /** The same with the exact total. */
  ghost function Absorb(p: Partial, a: Arrival, data: seq<byte>, c: nat): Partial
    requires c > 0
  {
    AbsorbAs(p, a, data, c, |data|)
  }

  ghost function AbsorbAllAs(p: Partial, arrivals: seq<Arrival>, data: seq<byte>, c: nat, total: nat): Partial
    requires c > 0
    decreases |arrivals|
  {
    if arrivals == [] then p
    else AbsorbAs(AbsorbAllAs(p, arrivals[..|arrivals| - 1], data, c, total), arrivals[|arrivals| - 1], data, c, total)
  }

  ghost function AbsorbAll(p: Partial, arrivals: seq<Arrival>, data: seq<byte>, c: nat): Partial
    requires c > 0
  {
    AbsorbAllAs(p, arrivals, data, c, |data|)
  }

  ghost predicate InRange(arrivals: seq<Arrival>, len: nat, c: nat)
    requires c > 0
  {
    forall i :: 0 <= i < |arrivals| ==> arrivals[i].num * c < len
  }

  /** Recorded blocks are covered by the buffer. */
  ghost predicate Holds(p: Partial, data: seq<byte>, c: nat)
    requires c > 0
  {
    p.got != {} ==> p.body.Some? && Covered(p.got, p.body.value, data, c)
  }

  /** The buffers from which reassembly with the exact total is safe in any order: none, one that is
      large enough already, or any at all if the body has at most two blocks. */
  ghost predicate SafeStart(body: Option<seq<byte>>, len: nat, c: nat)
    requires c > 0
  {
    body.None? || |body.value| >= len || len <= 2 * c
  }

  /** The invariant under every arrival. */
  ghost predicate Sound(p: Partial, data: seq<byte>, c: nat)
    requires c > 0
  {
    && Holds(p, data, c)
    && (|| (p.got == {} && SafeStart(p.body, |data|, c))
        || (p.body.Some? && |p.body.value| >= |data|)
        || (p.got == {0} && |data| <= 2 * c))
  }

  lemma {:induction false} AbsorbKeepsSound(p: Partial, a: Arrival, data: seq<byte>, c: nat)
    requires c > 0 && Sound(p, data, c) && a.num * c < |data|
    ensures Sound(Absorb(p, a, data, c), data, c)
  {
    if a.num !in p.got {
      var off := a.num * c;
      var w := Window(data, off, c);
      var q := Absorb(p, a, data, c);
      var r := q.body.value;
      assert a.num >= 2 ==> off >= 2 * c by { if a.num >= 2 { MulMonotone(2, a.num, c); } }
      assert a.num == 1 ==> off == c;
      assert |r| >= |data| || (a.num == 0 && p.got == {} && |data| <= 2 * c);
      forall i | 0 <= i < |data| && BlockOf(i, c) in q.got
        ensures i < |r| && r[i] == data[i]
      {
        ByteInBlock(i, c, a.num);
        if BlockOf(i, c) != a.num {
          assert BlockOf(i, c) in p.got;
          assert i < |p.body.value| && p.body.value[i] == data[i];
        }
      }
    }
  }

  lemma {:induction false} AbsorbAllKeepsSound(p: Partial, arrivals: seq<Arrival>, data: seq<byte>, c: nat)
    requires c > 0 && Sound(p, data, c) && InRange(arrivals, |data|, c)
    ensures Sound(AbsorbAll(p, arrivals, data, c), data, c)
    decreases |arrivals|
  {
    if arrivals != [] {
      AbsorbAllKeepsSound(p, arrivals[..|arrivals| - 1], data, c);
      AbsorbKeepsSound(AbsorbAll(p, arrivals[..|arrivals| - 1], data, c), arrivals[|arrivals| - 1], data, c);
    }
  }

  /** From a larger body's unsuitable buffer, block 1 followed by block 0 already loses block 1. */
  lemma {:induction false} UnsafeStartLosesBlock(b: seq<byte>, data: seq<byte>, c: nat, memory: Memory)
    requires c > 0 && !SafeStart(Some(b), |data|, c)
    ensures var run := [Arrival(1, memory), Arrival(0, memory)];
            InRange(run, |data|, c) && !Holds(AbsorbAll(Partial({}, Some(b)), run, data, c), data, c)
  {
    var run := [Arrival(1, memory), Arrival(0, memory)];
    var p0 := Partial({}, Some(b));
    assert run[..1] == [run[0]] && run[..1][..0] == [];
    assert AbsorbAll(p0, run[..1][..0], data, c) == p0;
    var p1 := AbsorbAll(p0, run[..1], data, c);
    assert p1 == Absorb(p0, run[0], data, c);
    var p2 := AbsorbAll(p0, run, data, c);
    assert p2 == Absorb(p1, run[1], data, c);
    assert 1 * c == c && 0 * c == 0;
    assert |p1.body.value| == 2 * c;
    assert |p2.body.value| == c;
    assert BlockOf(c, c) == 1;
    assert 1 in p2.got;
  }

  /** Reassembly with the exact total is independent of order and repetition, from exactly the safe buffers. */
  lemma {:induction false} AnyOrder(body: Option<seq<byte>>, data: seq<byte>, c: nat)
    requires c > 0
    ensures SafeStart(body, |data|, c) <==>
            forall arrivals :: InRange(arrivals, |data|, c) ==>
              Holds(AbsorbAll(Partial({}, body), arrivals, data, c), data, c)
  {
    if SafeStart(body, |data|, c) {
      forall arrivals | InRange(arrivals, |data|, c)
        ensures Holds(AbsorbAll(Partial({}, body), arrivals, data, c), data, c)
      {
        AbsorbAllKeepsSound(Partial({}, body), arrivals, data, c);
      }
    } else {
      UnsafeStartLosesBlock(body.value, data, c, _ => 0);
    }
  }

  // ----- any announced total -----

  /** The total covers every block but the last. */
  predicate CoversAllButLast(len: nat, c: nat, total: nat)
    requires c > 0
  {
    total >= (BlockCount(len, c) - 1) * c
  }

  /** The invariant for a total that may be wrong: the buffer is never cut below it. */
  ghost predicate SoundAs(p: Partial, data: seq<byte>, c: nat, total: nat)
    requires c > 0
  {
    && Holds(p, data, c)
    && (p.body.None? ==> p.got == {})
    && (p.body.Some? ==> |p.body.value| >= total)
  }

  lemma {:induction false} AbsorbAsKeepsSound(p: Partial, a: Arrival, data: seq<byte>, c: nat, total: nat)
    requires c > 0 && total > 0 && CoversAllButLast(|data|, c, total)
    requires SoundAs(p, data, c, total) && a.num * c < |data|
    ensures SoundAs(AbsorbAs(p, a, data, c, total), data, c, total)
  {
    if a.num !in p.got {
      var off := a.num * c;
      var q := AbsorbAs(p, a, data, c, total);
      var r := q.body.value;
      assert off + c <= total || off + c >= |data| by { LastOrInside(|data|, c, total, a.num); }
      forall i | 0 <= i < |data| && BlockOf(i, c) in q.got
        ensures i < |r| && r[i] == data[i]
      {
        ByteInBlock(i, c, a.num);
        if BlockOf(i, c) != a.num {
          assert BlockOf(i, c) in p.got;
          assert i < |p.body.value| && p.body.value[i] == data[i];
        }
      }
    }
  }

  lemma {:induction false} LastOrInside(len: nat, c: nat, total: nat, k: nat)
    requires c > 0 && k * c < len && CoversAllButLast(len, c, total)
    ensures k * c + c <= total || k * c + c >= len
  {
    var n := BlockCount(len, c);
    BlockCountBounds(len, c);
    BlockInside(len, c, k);
    if k + 1 < n {
      MulMonotone(k + 1, n - 1, c);
      assert (k + 1) * c == k * c + c;
    } else {
      assert (k + 1) * c == k * c + c;
    }
  }

  lemma {:induction false} AbsorbAllAsKeepsSound(
    p: Partial, arrivals: seq<Arrival>, data: seq<byte>, c: nat, total: nat)
    requires c > 0 && total > 0 && CoversAllButLast(|data|, c, total)
    requires SoundAs(p, data, c, total) && InRange(arrivals, |data|, c)
    ensures SoundAs(AbsorbAllAs(p, arrivals, data, c, total), data, c, total)
    decreases |arrivals|
  {
    if arrivals != [] {
      var before := arrivals[..|arrivals| - 1];
      AbsorbAllAsKeepsSound(p, before, data, c, total);
      AbsorbAsKeepsSound(AbsorbAllAs(p, before, data, c, total), arrivals[|arrivals| - 1], data, c, total);
    }
  }

  /** With a smaller total the last block followed by the one before it already loses the last. */
  lemma {:induction false} ShortTotalLosesBlock(data: seq<byte>, c: nat, total: nat, memory: Memory)
    requires c > 0 && total > 0 && !CoversAllButLast(|data|, c, total)
    ensures BlockCount(|data|, c) >= 2
    ensures var last: nat := BlockCount(|data|, c) - 1;
            var run := [Arrival(last, memory), Arrival(last - 1, memory)];
            && InRange(run, |data|, c)
            && !Holds(AbsorbAllAs(Partial({}, None), run, data, c, total), data, c)
  {
    LastBlockStart(|data|, c, total);
    var last: nat := BlockCount(|data|, c) - 1;
    var run := [Arrival(last, memory), Arrival(last - 1, memory)];
    var p0 := Partial({}, None);
    assert run[..1] == [run[0]] && run[..1][..0] == [];
    assert AbsorbAllAs(p0, run[..1][..0], data, c, total) == p0;
    var p1 := AbsorbAllAs(p0, run[..1], data, c, total);
    assert p1 == AbsorbAs(p0, run[0], data, c, total);
    assert AbsorbAllAs(p0, run, data, c, total) == AbsorbAs(p1, run[1], data, c, total);
    LastThenBefore(data, c, total, last, memory);
  }

  lemma {:induction false} LastBlockStart(len: nat, c: nat, total: nat)
    requires c > 0 && total > 0 && !CoversAllButLast(len, c, total)
    ensures var last := BlockCount(len, c) - 1;
            last >= 1 && total < last * c < len <= last * c + c && (last - 1) * c + c == last * c
  {
    BlockCountBounds(len, c);
    BlockInside(len, c, BlockCount(len, c) - 1);
  }

  lemma {:induction false} LastThenBefore(data: seq<byte>, c: nat, total: nat, k: nat, memory: Memory)
    requires k >= 1 && 0 < total < k * c < |data| <= k * c + c && (k - 1) * c + c == k * c
    ensures var p1 := AbsorbAs(Partial({}, None), Arrival(k, memory), data, c, total);
            !Holds(AbsorbAs(p1, Arrival(k - 1, memory), data, c, total), data, c)
  {
    var off := k * c;
    var p1 := AbsorbAs(Partial({}, None), Arrival(k, memory), data, c, total);
    var p2 := AbsorbAs(p1, Arrival(k - 1, memory), data, c, total);
    assert |p1.body.value| == |data|;
    assert |p2.body.value| == off;
    ByteInBlock(off, c, k);
    assert BlockOf(off, c) == k && k in p2.got;
  }

  /** From no buffer, every order of arrival keeps every recorded byte exactly if the total that was announced
      covers all blocks but the last. */
  lemma {:induction false} AnyTotal(data: seq<byte>, c: nat, total: nat)
    requires c > 0 && total > 0
    ensures CoversAllButLast(|data|, c, total) <==>
            forall arrivals :: InRange(arrivals, |data|, c) ==>
              Holds(AbsorbAllAs(Partial({}, None), arrivals, data, c, total), data, c)
  {
    if CoversAllButLast(|data|, c, total) {
      forall arrivals | InRange(arrivals, |data|, c)
        ensures Holds(AbsorbAllAs(Partial({}, None), arrivals, data, c, total), data, c)
      {
        AbsorbAllAsKeepsSound(Partial({}, None), arrivals, data, c, total);
      }
    } else {
      ShortTotalLosesBlock(data, c, total, _ => 0);
    }
  }

  /** When the completeness test passes, the buffer starts with the whole original. */
  lemma {:induction false} CompleteBody(got: set<nat>, body: seq<byte>, data: seq<byte>, c: nat)
    requires c > 0 && Covered(got, body, data, c) && Complete(got, BlockCount(|data|, c))
    ensures |body| >= |data| && body[..|data|] == data
  {
    forall i | 0 <= i < |data|
      ensures i < |body| && body[i] == data[i]
    {
      ByteInBlock(i, c, BlockOf(i, c));
      BlockInside(|data|, c, BlockOf(i, c));
      assert BlockOf(i, c) in got;
    }
    if |data| > 0 {
      var last := data[|data| - 1];
      assert body[|data| - 1] == last;
    }
  }
}
