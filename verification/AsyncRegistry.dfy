/** The registry of delayed requests (src/async.c:35-144). */
module AsyncRegistry {
  import opened Common

  class Session {
    var ref: nat
    constructor (ref: nat) ensures this.ref == ref { this.ref := ref; }
  }

  /** coap_async_t: the session and token of the request it holds, and when to run it (0 for not yet). */
  class Async {
    const session: Session
    const token: seq<byte>
    var delay: nat

    constructor (session: Session, token: seq<byte>, delay: nat)
      ensures this.session == session && this.token == token && this.delay == delay
    {
      this.session, this.token, this.delay := session, token, delay;
    }
  }

  ghost function Holding(s: seq<Async>, session: Session): nat
  {
    if s == [] then 0 else Holding(s[1..], session) + if s[0].session == session then 1 else 0
  }

  lemma {:induction false} HoldingWithout(s: seq<Async>, i: nat, session: Session)
    requires i < |s|
    ensures Holding(s, session) == Holding(s[..i] + s[i + 1..], session) + if s[i].session == session then 1 else 0
    decreases |s|
  {
    if i == 0 {
      assert s[..0] + s[1..] == s[1..];
    } else {
      HoldingWithout(s[1..], i - 1, session);
      assert (s[..i] + s[i + 1..])[1..] == s[1..][..i - 1] + s[1..][i..];
    }
  }

  lemma {:induction false} HoldingPositive(s: seq<Async>, i: nat)
    requires i < |s|
    ensures Holding(s, s[i].session) > 0
  {
    HoldingWithout(s, i, s[i].session);
  }

  class Context {
    var asyncs: seq<Async>                 // async_state, newest first
    ghost var base: map<Session, nat>      // references held by others

    ghost predicate Valid()
      reads this, base.Keys
    {
      && (forall i :: 0 <= i < |asyncs| ==> asyncs[i].session in base)
      && (forall i, j :: 0 <= i < j < |asyncs| ==>
            asyncs[i] != asyncs[j] && !Matches(asyncs[i], asyncs[j].session, asyncs[j].token))
      && (forall s :: s in base ==> s.ref == base[s] + Holding(asyncs, s))
    }

    static predicate Matches(a: Async, session: Session, token: seq<byte>)
    {
      a.session == session && a.token == token
    }

    constructor (sessions: map<Session, nat>)
      requires forall s :: s in sessions ==> s.ref == sessions[s]
      ensures Valid() && asyncs == [] && base == sessions
    {
      asyncs, base := [], sessions;
    }

    /** coap_find_async: the only entry for the pair, or none. */
    method Find(session: Session, token: seq<byte>) returns (r: Async?)
      requires Valid()
      ensures r != null ==> r in asyncs && Matches(r, session, token)
      ensures r != null ==> forall a :: a in asyncs && Matches(a, session, token) ==> a == r
      ensures r == null ==> forall a :: a in asyncs ==> !Matches(a, session, token)
      ensures r != null ==> r.session == session && r.token == token
      ensures r == null ==> forall a :: a in asyncs ==> a.session != session || a.token != token
    {
      for i := 0 to |asyncs|
        invariant forall k :: 0 <= k < i ==> !Matches(asyncs[k], session, token)
      {
        if Matches(asyncs[i], session, token) {
          return asyncs[i];
        }
      }
      return null;
    }

    /** coap_register_async, with `due` the tick its delay ends at (0 for no delay). */
    method Register(session: Session, isRequest: bool, token: seq<byte>, due: nat) returns (r: Async?)
      requires Valid() && session in base
      modifies this`asyncs, session
      ensures Valid() && base == old(base)
      ensures r == null <==> !isRequest || exists a :: a in old(asyncs) && Matches(a, session, token)
      ensures r == null ==> asyncs == old(asyncs) && session.ref == old(session.ref)
      ensures r != null ==> fresh(r) && Matches(r, session, token) && r.delay == due && asyncs == [r] + old(asyncs)
      ensures r != null ==> session.ref == old(session.ref) + 1
    {
      if !isRequest {
        return null;
      }
      var s := Find(session, token);
      if s != null {
        return null;
      }
      r := new Async(session, token, due);
      Link(r);
    }

    /** The session is referenced and the entry put in front. */
    method Link(r: Async)
      requires Valid() && r.session in base && r !in asyncs
      requires forall a :: a in asyncs ==> !Matches(a, r.session, r.token)
      modifies this`asyncs, r.session
      ensures Valid() && base == old(base) && asyncs == [r] + old(asyncs) && r.session.ref == old(r.session.ref) + 1
    {
      r.session.ref := r.session.ref + 1;
      ghost var before := asyncs;
      asyncs := [r] + asyncs;
      assert asyncs[1..] == before;
      forall i, j | 0 <= i < j < |asyncs|
        ensures asyncs[i] != asyncs[j] && !Matches(asyncs[i], asyncs[j].session, asyncs[j].token)
      {
        assert asyncs[j] == before[j - 1] && before[j - 1] in before;
        if i > 0 {
          assert asyncs[i] == before[i - 1];
        }
      }
    }

    /** coap_free_async: the entry is unlinked and its session released. */
    method Free(a: Async)
      requires Valid() && a in asyncs
      modifies this`asyncs, a.session
      ensures Valid() && base == old(base) && a !in asyncs
      ensures exists i :: 0 <= i < |old(asyncs)| && old(asyncs)[i] == a &&
                asyncs == old(asyncs)[..i] + old(asyncs)[i + 1..]
      ensures a.session.ref == old(a.session.ref) - 1
    {
      var i := 0;
      while asyncs[i] != a
        invariant 0 <= i < |asyncs| && a in asyncs[i..]
        decreases |asyncs| - i
      {
        i := i + 1;
      }
      Unlink(i);
    }

    method Unlink(i: nat)
      requires Valid() && i < |asyncs|
      modifies this`asyncs, asyncs[i].session
      ensures Valid() && base == old(base) && asyncs == old(asyncs[..i] + asyncs[i + 1..])
      ensures old(asyncs[i]) !in asyncs
      ensures old(asyncs[i].session).ref == old(asyncs[i].session.ref) - 1
    {
      var s := asyncs[i].session;
      HoldingPositive(asyncs, i);
      forall x | x in base
        ensures Holding(asyncs, x) == Holding(asyncs[..i] + asyncs[i + 1..], x) + if s == x then 1 else 0
      {
        HoldingWithout(asyncs, i, x);
      }
      asyncs := asyncs[..i] + asyncs[i + 1..];
      s.ref := s.ref - 1;
    }

    /** coap_delete_all_async: every session is back to what others hold of it. */
    method DeleteAll()
      requires Valid()
      modifies this`asyncs, base.Keys
      ensures Valid() && base == old(base) && asyncs == []
      ensures forall s :: s in base ==> s.ref == base[s]
    {
      while asyncs != []
        invariant Valid() && base == old(base)
        decreases |asyncs|
      {
        Unlink(0);
      }
    }
  }

  /** Every registration raises its session's count, so a session still delayed is referenced. */
  lemma {:induction false} DelayedSessionIsReferenced(c: Context, i: nat)
    requires c.Valid() && i < |c.asyncs|
    ensures c.asyncs[i].session.ref > c.base[c.asyncs[i].session] >= 0
  {
    HoldingPositive(c.asyncs, i);
  }
}
