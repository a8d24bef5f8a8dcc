/** Reference-counted resource bodies of the example server
    (examples/coap-server.c:149-219, 429-461 and 562-597), and what coap_add_data_large_response
    does with the reference it is given (src/block.c:626-717). */
module BodyLifetime {
  import opened Common
  import opened BlockOption
  import opened Block1Sender

  /** transient_value_t; `freed` once the value and the record are given back. `drift` is how far the count
      is from the number of holders. */
  class Transient {
    const value: seq<byte>
    var refCnt: nat
    var freed: bool
    ghost var drift: int

    /** alloc_resource_data. */
    constructor (value: seq<byte>)
      ensures this.value == value && refCnt == 1 && !freed && drift == 0
    {
      this.value, refCnt, freed, drift := value, 1, false, 0;
    }
  }

  ghost function Count(s: seq<Transient>, t: Transient): nat
  {
    if s == [] then 0 else Count(s[..|s| - 1], t) + if s[|s| - 1] == t then 1 else 0
  }

  lemma {:induction false} CountAppend(s: seq<Transient>, x: Transient, t: Transient)
    ensures Count(s + [x], t) == Count(s, t) + if x == t then 1 else 0
  {
    assert (s + [x])[..|s|] == s;
  }

  lemma {:induction false} CountMember(s: seq<Transient>, t: Transient)
    ensures t in s <==> Count(s, t) > 0
  {
    if s != [] {
      CountMember(s[..|s| - 1], t);
      assert s == s[..|s| - 1] + [s[|s| - 1]];
    }
  }

  lemma {:induction false} CountWithout(s: seq<Transient>, i: nat, t: Transient)
    requires i < |s|
    ensures Count(s, t) == Count(s[..i] + s[i + 1..], t) + if s[i] == t then 1 else 0
    decreases |s|
  {
    var f, last := s[..|s| - 1], s[|s| - 1];
    if i == |s| - 1 {
      assert s[..i] + s[i + 1..] == f;
    } else {
      CountWithout(f, i, t);
      assert f[..i] + f[i + 1..] + [last] == s[..i] + s[i + 1..];
      CountAppend(f[..i] + f[i + 1..], last, t);
    }
  }

  /** A GET as the response code sees it: its Block2 option if it has one that can be read, and the room in
      the response PDU when the block option is written, when the body is added, and after the transfer's own
      options. */
  datatype Request = Request(block: Option<Block>, room: nat, avail: int, availAfter: int) {
    predicate WellFormed() { block.Some? ==> block.value.num <= MAX_NUM && block.value.szx < 8 }

    /** The block asked for starts past the end of the body, or its rest does not fit and neither do 16 bytes:
        the release callback is never passed on (src/block.c:649-655 and 675-687). */
    predicate Refused(len: nat)
    {
      block.Some? &&
      var start := block.value.num * Chunk(block.value.szx);
      (block.value.num != 0 && len <= start) || (room < 16 && room < len - start)
    }

    /** The block option in the response by then, as it is read there. */
    function InResponse(len: nat): (app: Option<Block>)
      requires WellFormed()
      ensures app.Some? ==> app.value.num <= MAX_NUM && app.value.szx < 8
    {
      if block.None? then None
      else
        var w := Settled(block.value, room, len);
        if w.Written? then Read(Some(w.block)) else None
    }

    /** The options fill the response and more: the size for the room left is looked for without end, with the
        reference taken (src/block.c:397-400, src/encode.c:19-25). */
    predicate NeverAnswered(len: nat) { !Refused(len) && avail < 0 }

    predicate InBlocks(len: nat)
      requires WellFormed()
    {
      !Refused(len) && NeedsBlocks(Min(len, MAX_BLK_LEN), avail, InResponse(len))
    }

    /** The transfer's options leave no room for a block: the callback runs twice (src/block.c:557-562,
        603-608 and 881-882). */
    predicate FailsLate(len: nat)
      requires WellFormed()
    {
      InBlocks(len) && availAfter < 16
    }

    predicate Starts(len: nat)
      requires WellFormed()
    {
      InBlocks(len) && availAfter >= 16
    }

    /** The reference that is taken is kept by a transmission or given back once. */
    predicate KeepsCount(len: nat)
      requires WellFormed()
    {
      !Refused(len) && avail >= 0 && !FailsLate(len)
    }

    /** How far the count moves away from the holders. */
    function Drift(len: nat): int
      requires WellFormed()
    {
      if Refused(len) || NeverAnswered(len) then 1 else if FailsLate(len) then -1 else 0
    }
  }

  /** The block option of the response, if one was asked for (src/block.c:670-688), and what is read from it. */
  method WriteOption(q: Request, len: nat) returns (refused: bool, app: Option<Block>)
    requires q.WellFormed()
    ensures refused <==> q.Refused(len)
    ensures !refused ==> app == q.InResponse(len)
    ensures q.block.None? ==> app == None
    // the block in the response starts where the one asked for does, in a size that is not larger
    ensures app.Some? ==>
              && app.value.num * Chunk(app.value.szx) == q.block.value.num * Chunk(q.block.value.szx)
              && app.value.szx <= q.block.value.szx
    // and only a number that outgrows the option in a smaller size cannot be read
    ensures !refused && q.block.Some? && app.None? ==>
              exists b :: Renumbered(q.block.value, b) && b.num > MAX_NUM
  {
    refused, app := false, None;
    if q.block.Some? {
      var w, opt := WriteBlockOpt(q.block.value, q.room, len);
      if w.Written? {
        OptionRoundTrip(w.block);
        assert Renumbered(q.block.value, w.block);
        app := GetBlock(Some(opt));
      } else {
        refused := true;
      }
    }
  }

  /** The body the handler makes up the first time. */
  function InitialBody(): (body: seq<byte>)
    ensures |body| == 1500
  {
    seq(1500, i requires 0 <= i < 1500 => if i % 10 == 0 then 97 + i / 10 % 26 else 48 + i % 10)
  }

  ghost function Without(s: seq<Transient>, i: Option<nat>): seq<Transient>
  {
    if i.Some? && i.value < |s| then s[..i.value] + s[i.value + 1..] else s
  }

  class Resource {
    var current: Transient?          // example_data_value
    var sending: seq<Transient>      // app_ptr of each transmission in progress
    ghost var all: set<Transient>    // every value ever allocated

    ghost predicate Valid()
      reads this, all
    {
      && (current != null ==> current in all)
      && (forall t :: t in sending ==> t in all)
      && (forall t :: t in all ==> Counted(t))
    }

    ghost function Holders(t: Transient): nat
      reads this
    {
      Count(sending, t) + if current == t then 1 else 0
    }

    ghost predicate Counted(t: Transient)
      reads this, t
    {
      t.refCnt == Holders(t) + t.drift && (t.freed <==> t.refCnt == 0)
    }

    /** Every count is the number of holders. */
    ghost predicate Exact()
      reads this, all
    {
      forall t :: t in all ==> t.drift == 0
    }

    constructor ()
      ensures Valid() && Exact() && current == null && sending == [] && all == {}
    {
      current, sending, all := null, [], {};
    }

    /** While no count is short, the bytes of every transmission in progress and of the current value are
        there; a value whose count is exact is freed exactly if nobody holds it, one whose count is too high
        never is. */
    lemma {:induction false} NeverFreedInUse(t: Transient)
      requires Valid() && t in all
      ensures t.drift >= 0 && (t in sending || t == current) ==> !t.freed
      ensures t.drift == 0 ==> (t.freed <==> t !in sending && t != current)
      ensures t.drift > 0 ==> !t.freed
    {
      CountMember(sending, t);
    }

    /** release_resource_data. */
    method Release(t: Transient)
      requires t.refCnt > 0 && !t.freed
      modifies t
      ensures t.refCnt == old(t.refCnt) - 1 && (t.freed <==> t.refCnt == 0) && t.drift == old(t.drift)
    {
      t.refCnt := t.refCnt - 1;
      if t.refCnt > 0 {
        return;
      }
      t.freed := true;
    }

    /** The value is made up on first use. */
    method EnsureValue()
      requires Valid()
      modifies this`current, this`all
      ensures Valid() && current != null && old(all) <= all && all <= old(all) + {current}
      ensures old(current) != null ==> current == old(current)
      ensures old(current) == null ==> fresh(current) && current.value == InitialBody()
      ensures old(current) == null ==> current.drift == 0 && !current.freed
    {
      if current == null {
        var t := new Transient(InitialBody());
        NewIsUncounted(sending, t, all);
        current, all := t, all + {t};
      }
    }

    /** reference_resource_data. */
    method Reference()
      requires Valid() && current != null && !current.freed
      modifies current
      ensures Valid() && current.drift == old(current.drift) + 1 && current.refCnt == old(current.refCnt) + 1
      ensures !current.freed
    {
      current.refCnt := current.refCnt + 1;
      current.drift := current.drift + 1;
    }

    /** The release callback runs for the current value. */
    method GiveBack()
      requires Valid() && current != null && !current.freed
      modifies current
      ensures Valid() && current.drift == old(current.drift) - 1 && current.refCnt == old(current.refCnt) - 1
    {
      Release(current);
      current.drift := current.drift - 1;
    }

    /** A transmission keeps the reference. */
    method Hold()
      requires Valid() && current != null
      modifies this`sending, current`drift
      ensures Valid() && sending == old(sending) + [current] && current.drift == old(current.drift) - 1
    {
      forall x | x in all ensures Count(sending + [current], x) == Count(sending, x) + if current == x then 1 else 0 {
        CountAppend(sending, current, x);
      }
      sending := sending + [current];
      current.drift := current.drift - 1;
    }

    /** Transmission `i` ends and its release callback runs. */
    method Finish(i: nat)
      requires Valid() && i < |sending| && !sending[i].freed
      modifies this`sending, sending[i]
      ensures Valid() && sending == old(Without(sending, Some(i)))
      ensures forall t :: t in all ==> t.drift == old(t.drift)
      ensures var t := old(sending[i]);
              t.refCnt == old(t.refCnt) - 1 && (t.freed <==> Holders(t) + t.drift == 0)
      ensures old(Exact()) ==> Exact()
    {
      var t := sending[i];
      assert t in sending && Counted(t);
      forall x | x in all
        ensures Count(sending, x) == Count(sending[..i] + sending[i + 1..], x) + if t == x then 1 else 0
      {
        CountWithout(sending, i, x);
      }
      sending := sending[..i] + sending[i + 1..];
      Release(t);
    }

    /** The part of coap_add_data_large_internal that concerns the reference: an earlier transmission of this
        session and query is ended, then the new one keeps the reference or gives it back. */
    method Transmit(q: Request, app: Option<Block>, earlier: Option<nat>) returns (returned: bool)
      requires Valid() && current != null && q.WellFormed() && !q.Refused(|current.value|)
      requires app == q.InResponse(|current.value|)
      requires earlier.Some? ==> earlier.value < |sending| && !sending[earlier.value].freed
      requires !current.freed && current.refCnt >= 2
      requires earlier.Some? && sending[earlier.value] == current ==> current.refCnt >= 3
      modifies this`sending, all
      ensures Valid() && (returned <==> q.avail >= 0)
      ensures sending == old(Without(sending, earlier)) + if q.Starts(|current.value|) then [current] else []
      ensures current.drift == old(current.drift) - 1 + q.Drift(|current.value|)
      ensures forall t :: t in all && t != current ==> t.drift == old(t.drift)
    {
      if earlier.Some? {
        Finish(earlier.value);
      }
      var r, szx, released := AddDataLarge(current.value, q.avail, app, q.availAfter);
      returned := !r.NeverReturns?;
      if released > 0 {
        GiveBack();
      }
      if released > 1 {
        GiveBack();
      }
      if r.Started? {
        Hold();
      }
    }

    /** The current value is the body of a response: a reference is taken and coap_add_data_large_response does
        the rest. `earlier` is the transmission in progress for the same session and query. */
    method Respond(q: Request, earlier: Option<nat>) returns (returned: bool)
      requires Valid() && current != null && !current.freed && q.WellFormed()
      requires earlier.Some? ==> earlier.value < |sending| && !sending[earlier.value].freed
      requires earlier.Some? && sending[earlier.value] == current ==> current.refCnt >= 2
      modifies this`sending, all
      ensures Valid()
      ensures returned <==> !q.NeverAnswered(|current.value|)
      ensures sending == if q.Refused(|current.value|) then old(sending)
                         else old(Without(sending, earlier)) + if q.Starts(|current.value|) then [current] else []
      ensures current.drift == old(current.drift) + q.Drift(|current.value|)
      ensures forall t :: t in all && t != current ==> t.drift == old(t.drift)
    {
      returned := true;
      Reference();
      var refused, app := WriteOption(q, |current.value|);
      if !refused {
        returned := Transmit(q, app, earlier);
      }
    }

    /** hnd_get_example_data. Without an answer this is the state the server stays in. */
    method Get(q: Request, earlier: Option<nat>) returns (body: seq<byte>, returned: bool)
      requires Valid() && q.WellFormed()
      // memory that was given back is not touched
      requires current != null ==> !current.freed
      requires earlier.Some? ==> earlier.value < |sending| && !sending[earlier.value].freed
      requires earlier.Some? && sending[earlier.value] == current ==> sending[earlier.value].refCnt >= 2
      modifies this, all
      ensures Valid() && old(all) <= all && current != null && body == current.value
      ensures returned <==> !q.NeverAnswered(|body|)
      ensures old(current) != null ==> current == old(current)
      ensures old(current) == null ==> |body| == 1500
      ensures fresh(all - old(all))
      ensures sending == if q.Refused(|body|) then old(sending)
                         else old(Without(sending, earlier)) + if q.Starts(|body|) then [current] else []
      // the count of the current value moves away from its holders in three cases ...
      ensures current.drift == (if old(current) == null then 0 else old(current.drift)) + q.Drift(|body|)
      ensures forall t :: t in old(all) && t != current ==> t.drift == old(t.drift)
      // ... and the counts stay exact in all others
      ensures old(Exact()) ==> (Exact() <==> q.KeepsCount(|body|))
    {
      EnsureValue();
      body := current.value;
      returned := Respond(q, earlier);
      assert all <= old(all) + {current} && current in all;
    }

    /** hnd_put_example_data once the new body is complete; `None` is a failed allocation. */
    method Put(data: Option<seq<byte>>)
      requires Valid() && (current != null ==> !current.freed)
      modifies this, all
      ensures Valid() && old(all) <= all && fresh(all - old(all)) && sending == old(sending)
      ensures data.None? ==> current == null
      ensures data.Some? ==> current != null && fresh(current) && current.value == data.value && current.drift == 0
      ensures forall t :: t in old(all) ==>
                && t.drift == old(t.drift)
                && (t.freed <==> old(t.freed) || (t == old(current) && Holders(t) + t.drift == 0))
      ensures old(Exact()) ==> Exact()
      ensures all <= old(all) + {current}
    {
      if current != null {
        var t := current;
        current := null;
        Release(t);
      }
      if data.Some? {
        current := new Transient(data.value);
        NewIsUncounted(sending, current, all);
        all := all + {current};
      }
    }

    /** hnd_put_example_data with `echo_back`: the new value is also the body of the response. */
    method PutAndEcho(data: seq<byte>, q: Request, earlier: Option<nat>) returns (returned: bool)
      requires Valid() && (current != null ==> !current.freed) && q.WellFormed()
      requires earlier.Some? ==> earlier.value < |sending| && !sending[earlier.value].freed
      requires earlier.Some? && sending[earlier.value] == current ==> sending[earlier.value].refCnt >= 2
      modifies this, all
      ensures Valid() && old(all) <= all && current != null && fresh(current) && current.value == data
      ensures returned <==> !q.NeverAnswered(|data|)
      ensures sending == if q.Refused(|data|) then old(sending)
                         else old(Without(sending, earlier)) + if q.Starts(|data|) then [current] else []
      ensures current.drift == q.Drift(|data|) && forall t :: t in old(all) ==> t.drift == old(t.drift)
      ensures old(Exact()) ==> (Exact() <==> q.KeepsCount(|data|))
    {
      Put(Some(data));
      returned := Respond(q, earlier);
      assert current in all;
    }
  }

  lemma {:induction false} NewIsUncounted(s: seq<Transient>, x: Transient, known: set<Transient>)
    requires x !in known && forall t :: t in s ==> t in known
    ensures Count(s, x) == 0
  {
    CountMember(s, x);
  }

  // ----- the three ways a count goes wrong -----

  /** A GET for a block past the end, then a PUT: the first value is never freed, though nobody holds it. */
  method RefusedGetLeaks() returns (r: Resource, t: Transient)
    ensures r.Valid() && t in r.all && t !in r.sending && t != r.current && !t.freed && t.drift == 1
  {
    r := new Resource();
    LaterStart();
    var body, ok := r.Get(Request(Some(Block(100, false, 6)), 1000, 990, 980), None);
    t := r.current;
    r.Put(Some([]));
    r.NeverFreedInUse(t);
  }

  lemma {:induction false} LaterStart()
    ensures 100 * Chunk(6) >= 1500
  {
  }

  /** A GET answered in blocks, one whose response has 20 bytes before and 12 after its options, then a PUT:
      the value still being sent is freed. */
  method LateFailureFreesEarly() returns (r: Resource, t: Transient)
    ensures r.Valid() && t in r.sending && t.freed
  {
    r := new Resource();
    var body, ok := r.Get(Request(None, 1000, 1000, 980), None);
    t := r.current;
    body, ok := r.Get(Request(None, 20, 20, 12), None);
    CountAppend([], t, t);
    assert r.sending == [] + [t];
    r.Put(Some([]));
  }

  /** Such a GET alone frees the value the resource still points to. */
  method LateFailureFreesCurrent() returns (r: Resource)
    ensures r.Valid() && r.current != null && r.current.freed
  {
    r := new Resource();
    var body, ok := r.Get(Request(None, 20, 20, 12), None);
  }

  /** Options that fill the response exactly: the GET takes its reference and is never answered. */
  method FullResponseIsNeverAnswered() returns (r: Resource, returned: bool)
    ensures r.Valid() && !returned && r.current != null && r.current.drift == 1
  {
    r := new Resource();
    var body;
    body, returned := r.Get(Request(None, 0, -1, -1), None);
  }
}
