/** Expiry of finished transfers and the time to the next wake-up
    (src/block.c:719-740 and 773-793, src/coap_io.c:1055-1190 and 1254). */
module Expiry {
  import opened Common

  /** The tick value -1, which stands for "never". */
  const INFINITE: nat := 0xFFFF_FFFF_FFFF_FFFF

  const TICKS: nat := 0x1_0000_0000_0000_0000 // coap_tick_t is 64 bits wide

  /** A coap_lg_srcv_t or coap_lg_crcv_t; `lastUsed` is 0 while the transfer is in progress. */
  datatype Entry = Entry(id: nat, lastUsed: nat, observing: bool)

  /** The two scans differ in one point: a client entry that observes a resource never expires. */
  datatype Side = ServerSide | ClientSide

  predicate Finished(side: Side, e: Entry)
  {
    e.lastUsed != 0 && !(side == ClientSide && e.observing)
  }

  predicate Expired(side: Side, e: Entry, life: nat, now: nat)
  {
    Finished(side, e) && e.lastUsed + life <= now
  }

  /** The entries that are left, in their order. */
  function Kept(side: Side, s: seq<Entry>, life: nat, now: nat): seq<Entry>
  {
    if s == [] then []
    else
      var front := Kept(side, s[..|s| - 1], life, now);
      var last := s[|s| - 1];
      if Expired(side, last, life, now) then front else front + [last]
  }

  /** `d` is the shortest time to the end of a finished entry, or INFINITE if there is none. */
  ghost predicate IsNextDelay(side: Side, s: seq<Entry>, life: nat, now: nat, d: nat)
  {
    && (forall i :: 0 <= i < |s| && Finished(side, s[i]) ==> now + d <= s[i].lastUsed + life)
    && (d == INFINITE || exists i :: 0 <= i < |s| && Finished(side, s[i]) && now + d == s[i].lastUsed + life)
  }

  /** Tick values do not run over. */
  ghost predicate InTime(s: seq<Entry>, life: nat)
  {
    forall i :: 0 <= i < |s| ==> s[i].lastUsed + life < INFINITE
  }

  lemma {:induction false} KeptExactly(side: Side, s: seq<Entry>, life: nat, now: nat, e: Entry)
    ensures e in Kept(side, s, life, now) <==> e in s && !Expired(side, e, life, now)
    ensures Expired(side, e, life, now) <==>
            e.lastUsed != 0 && e.lastUsed + life <= now && (side == ServerSide || !e.observing)
  {
    if s != [] {
      KeptExactly(side, s[..|s| - 1], life, now, e);
      assert e in s <==> e in s[..|s| - 1] || e == s[|s| - 1];
    }
  }

  /** A walk along both lists: `t` is what is left of `s`, exactly the entries that have not expired, in their
      order. */
  predicate LeftOf(side: Side, s: seq<Entry>, t: seq<Entry>, life: nat, now: nat)
    decreases |s|
  {
    if s == [] then t == []
    else if Expired(side, s[0], life, now) then LeftOf(side, s[1..], t, life, now)
    else t != [] && t[0] == s[0] && LeftOf(side, s[1..], t[1..], life, now)
  }

  lemma {:induction false} LeftAppend(side: Side, s: seq<Entry>, t: seq<Entry>, e: Entry, life: nat, now: nat)
    requires LeftOf(side, s, t, life, now)
    ensures LeftOf(side, s + [e], if Expired(side, e, life, now) then t else t + [e], life, now)
    decreases |s|
  {
    if s == [] {
      assert (s + [e])[1..] == [] && (t + [e])[1..] == [];
    } else {
      assert (s + [e])[1..] == s[1..] + [e];
      if Expired(side, s[0], life, now) {
        LeftAppend(side, s[1..], t, e, life, now);
      } else {
        assert (t + [e])[1..] == t[1..] + [e];
        LeftAppend(side, s[1..], t[1..], e, life, now);
      }
    }
  }

  lemma {:induction false} KeptIsLeft(side: Side, s: seq<Entry>, life: nat, now: nat)
    ensures LeftOf(side, s, Kept(side, s, life, now), life, now)
  {
    if s != [] {
      KeptIsLeft(side, s[..|s| - 1], life, now);
      LeftAppend(side, s[..|s| - 1], Kept(side, s[..|s| - 1], life, now), s[|s| - 1], life, now);
      assert s == s[..|s| - 1] + [s[|s| - 1]];
    }
  }

  lemma {:induction false} NothingExpired(side: Side, s: seq<Entry>, life: nat, now: nat)
    ensures Kept(side, s, life, now) == s <==> forall i :: 0 <= i < |s| ==> !Expired(side, s[i], life, now)
    ensures |Kept(side, s, life, now)| <= |s|
  {
    if s != [] {
      var f, last := s[..|s| - 1], s[|s| - 1];
      NothingExpired(side, f, life, now);
      assert forall i :: 0 <= i < |f| ==> f[i] == s[i];
      assert s == f + [last];
      if Expired(side, last, life, now) {
        assert |Kept(side, s, life, now)| < |s|;
      } else {
        assert Kept(side, s, life, now) == Kept(side, f, life, now) + [last];
        if Kept(side, f, life, now) != f {
          assert Kept(side, s, life, now)[..|Kept(side, f, life, now)|] == Kept(side, f, life, now);
        }
      }
    }
  }

  /** The delay a scan returns is exact: nothing expires before it has passed, something does when it has. */
  lemma {:induction false} WakesExactly(side: Side, s: seq<Entry>, life: nat, now: nat, d: nat, later: nat)
    requires IsNextDelay(side, s, life, now, d) && InTime(s, life)
    ensures later < now + d ==> Kept(side, s, life, later) == s
    ensures d != INFINITE ==> |Kept(side, s, life, now + d)| < |s|
  {
    NothingExpired(side, s, life, later);
    NothingExpired(side, s, life, now + d);
    if d != INFINITE {
      var i :| 0 <= i < |s| && Finished(side, s[i]) && now + d == s[i].lastUsed + life;
      assert Expired(side, s[i], life, now + d);
      if |Kept(side, s, life, now + d)| == |s| {
        KeptIsWhole(side, s, life, now + d);
      }
    }
  }

  lemma {:induction false} KeptIsWhole(side: Side, s: seq<Entry>, life: nat, now: nat)
    requires |Kept(side, s, life, now)| == |s|
    ensures Kept(side, s, life, now) == s
  {
    if s != [] {
      NothingExpired(side, s[..|s| - 1], life, now);
      KeptIsWhole(side, s[..|s| - 1], life, now);
    }
  }

  lemma {:induction false} KeptFront(side: Side, s: seq<Entry>, i: nat, life: nat, now: nat)
    requires i < |s|
    ensures Kept(side, s[..i + 1], life, now) ==
            Kept(side, s[..i], life, now) + (if Expired(side, s[i], life, now) then [] else [s[i]])
  {
    assert s[..i + 1][..i] == s[..i];
  }

  /** coap_block_check_lg_srcv_timeouts and coap_block_check_lg_crcv_timeouts. */
  method CheckTimeouts(side: Side, entries: seq<Entry>, life: nat, now: nat) returns (list: seq<Entry>, rem: nat)
    requires InTime(entries, life)
    ensures list == Kept(side, entries, life, now)
    ensures LeftOf(side, entries, list, life, now)
    ensures IsNextDelay(side, list, life, now, rem)
    ensures 0 < rem <= INFINITE
  {
    // `list` is what the walk has left behind it; the nodes ahead are entries[i..]
    list, rem := [], INFINITE;
    for i := 0 to |entries|
      invariant list == Kept(side, entries[..i], life, now)
      invariant IsNextDelay(side, list, life, now, rem) && 0 < rem <= INFINITE
    {
      var p := entries[i];
      KeptFront(side, entries, i, life, now);
      if Finished(side, p) && p.lastUsed + life <= now {
        // unlinked
      } else {
        ghost var was := rem;
        if Finished(side, p) && rem > p.lastUsed + life - now {
          rem := p.lastUsed + life - now;
        }
        NextDelayStep(side, list, p, life, now, was, rem);
        list := list + [p];
      }
    }
    assert entries[..|entries|] == entries;
    KeptIsLeft(side, entries, life, now);
  }

  lemma {:induction false} NextDelayStep(side: Side, s: seq<Entry>, p: Entry, life: nat, now: nat, was: nat, rem: nat)
    requires IsNextDelay(side, s, life, now, was) && was <= INFINITE && p.lastUsed + life < INFINITE
    requires Finished(side, p) ==> p.lastUsed + life > now
    requires rem == if Finished(side, p) && was > p.lastUsed + life - now then p.lastUsed + life - now else was
    ensures IsNextDelay(side, s + [p], life, now, rem)
  {
    var t := s + [p];
    assert t[|s|] == p && forall i :: 0 <= i < |s| ==> t[i] == s[i];
    if rem == was && was != INFINITE {
      var i :| 0 <= i < |s| && Finished(side, s[i]) && now + was == s[i].lastUsed + life;
      assert Finished(side, t[i]);
    }
  }

  // ----- the time to the next wake-up -----

  /** A session as the wake-up computation sees it. */
  datatype Session = Session(
    server: bool, busy: bool,               // referenced or with queued messages
    stateNone: bool, established: bool, waitsForCsm: bool,
    lastRxTx: nat, lastPing: nat, lastPong: nat, csmTx: nat,
    srcv: seq<Entry>, crcv: seq<Entry>)

  /** Intervals in ticks; a ping or CSM interval of 0 means it is not used. */
  datatype Config = Config(sessionTimeout: nat, pingTimeout: nat, csmTimeout: nat, life: nat)

  ghost predicate Running(s: Session, c: Config)
  {
    && InTime(s.srcv, c.life) && InTime(s.crcv, c.life)
    && s.lastRxTx + c.sessionTimeout < INFINITE && s.lastRxTx + c.pingTimeout < INFINITE
    && s.csmTx + c.csmTimeout < INFINITE
    && !(s.established && s.waitsForCsm) // two values of the session state
  }

  /** `now + t` is not past the moment `due`. */
  ghost predicate InTimeFor(t: nat, now: nat, due: nat) { 0 < t && now + t <= due }

  ghost predicate WakesForEntries(side: Side, t: nat, now: nat, s: seq<Entry>, life: nat)
  {
    forall i :: 0 <= i < |s| && Finished(side, s[i]) ==> InTimeFor(t, now, s[i].lastUsed + life)
  }

  predicate IdleServer(s: Session) { s.server && !s.busy }

  ghost predicate WakesForServer(t: nat, now: nat, s: Session, c: Config)
  {
    && (IdleServer(s) ==> InTimeFor(t, now, s.lastRxTx + c.sessionTimeout))
    && WakesForEntries(ServerSide, t, now, s.srcv, c.life)
  }

  ghost predicate WakesForClient(t: nat, now: nat, s: Session, c: Config)
  {
    && (!s.server && s.established && c.pingTimeout > 0 ==> InTimeFor(t, now, s.lastRxTx + c.pingTimeout))
    && (!s.server && s.waitsForCsm && c.csmTimeout > 0 ==> InTimeFor(t, now, s.csmTx + c.csmTimeout))
    && WakesForEntries(ClientSide, t, now, s.crcv, c.life)
  }

  ghost predicate DueEntry(side: Side, t: nat, now: nat, s: seq<Entry>, life: nat)
  {
    exists i :: 0 <= i < |s| && Finished(side, s[i]) && now + t == s[i].lastUsed + life
  }

  /** Something happens to the session at `now + t`. */
  ghost predicate DueServer(t: nat, now: nat, s: Session, c: Config)
  {
    || (IdleServer(s) && now + t == s.lastRxTx + c.sessionTimeout)
    || DueEntry(ServerSide, t, now, s.srcv, c.life)
  }

  ghost predicate DueClient(t: nat, now: nat, s: Session, c: Config)
  {
    || (!s.server && s.established && c.pingTimeout > 0 && now + t == s.lastRxTx + c.pingTimeout)
    || (!s.server && s.waitsForCsm && c.csmTimeout > 0 && now + t == s.csmTx + c.csmTimeout)
    || DueEntry(ClientSide, t, now, s.crcv, c.life)
  }

  /** The new timeout when something is due in `d` ticks; 0 means that nothing has been found so far. */
  function Sooner(timeout: nat, d: nat): (r: nat)
    ensures d > 0 ==> 0 < r <= d && (timeout > 0 ==> r <= timeout)
    ensures r == timeout || r == d
  {
    if timeout == 0 || d < timeout then d else timeout
  }

  lemma {:induction false} EarlierServer(t: nat, u: nat, now: nat, s: Session, c: Config)
    requires WakesForServer(t, now, s, c) && 0 < u && (t > 0 ==> u <= t)
    ensures WakesForServer(u, now, s, c)
  {
  }

  lemma {:induction false} EarlierClient(t: nat, u: nat, now: nat, s: Session, c: Config)
    requires WakesForClient(t, now, s, c) && 0 < u && (t > 0 ==> u <= t)
    ensures WakesForClient(u, now, s, c)
  {
  }

  // ----- what a visit does to a session -----

  predicate ServerGone(s: Session, c: Config, now: nat)
  {
    IdleServer(s) && (s.lastRxTx + c.sessionTimeout <= now || s.stateNone)
  }

  function ServerAfter(s: Session, c: Config, now: nat): Session
  {
    s.(srcv := Kept(ServerSide, s.srcv, c.life, now))
  }

  predicate AwaitsPing(s: Session, c: Config) { !s.server && s.established && c.pingTimeout > 0 }

  predicate PingDue(s: Session, c: Config, now: nat)
  {
    AwaitsPing(s, c) && s.lastRxTx + c.pingTimeout <= now
  }

  predicate AwaitsCsm(s: Session, c: Config) { !s.server && s.waitsForCsm && c.csmTimeout > 0 }

  predicate ClientDown(s: Session, c: Config, now: nat, pinged: bool)
  {
    || (PingDue(s, c, now) && ((s.lastPing > 0 && s.lastPong < s.lastPing) || !pinged))
    || (AwaitsCsm(s, c) && s.csmTx != 0 && s.csmTx + c.csmTimeout <= now)
  }

  /** The session stays and has a deadline or a list of transfers, finished or not. */
  predicate ServerWaits(s: Session, c: Config, now: nat)
  {
    !ServerGone(s, c, now) && (IdleServer(s) || s.srcv != [])
  }

  predicate ClientWaits(s: Session, c: Config, now: nat, pinged: bool)
  {
    !ClientDown(s, c, now, pinged) && (AwaitsPing(s, c) || AwaitsCsm(s, c) || s.crcv != [])
  }

  function ClientAfter(s: Session, c: Config, now: nat): Session
  {
    s.(lastRxTx := if PingDue(s, c, now) then now else s.lastRxTx,
       lastPing := if PingDue(s, c, now) then now else s.lastPing,
       csmTx := if AwaitsCsm(s, c) && s.csmTx == 0 then now else s.csmTx,
       crcv := Kept(ClientSide, s.crcv, c.life, now))
  }

  /** What a session keeps: the transfers that have not expired and everything else. */
  ghost predicate KeepsServer(s: Session, s': Session, c: Config, now: nat)
  {
    s' == s.(srcv := s'.srcv) && LeftOf(ServerSide, s.srcv, s'.srcv, c.life, now)
  }

  /** A ping that is due has been sent now, and the wait for a CSM starts now if it has not yet. */
  ghost predicate KeepsClient(s: Session, s': Session, c: Config, now: nat)
  {
    var pings := !s.server && s.established && c.pingTimeout > 0 && s.lastRxTx + c.pingTimeout <= now;
    var waits := !s.server && s.waitsForCsm && c.csmTimeout > 0 && s.csmTx == 0;
    && s' == s.(lastRxTx := s'.lastRxTx, lastPing := s'.lastPing, csmTx := s'.csmTx, crcv := s'.crcv)
    && s'.lastRxTx == (if pings then now else s.lastRxTx) && s'.lastPing == (if pings then now else s.lastPing)
    && s'.csmTx == (if waits then now else s.csmTx)
    && LeftOf(ClientSide, s.crcv, s'.crcv, c.life, now)
  }

  /** The sessions left are those that are not freed, in their order, each with what it keeps. */
  ghost predicate ServersLeft(servers: seq<Session>, left: seq<Session>, c: Config, now: nat)
    decreases |servers|
  {
    if servers == [] then left == []
    else if ServerGone(servers[0], c, now) then ServersLeft(servers[1..], left, c, now)
    else left != [] && KeepsServer(servers[0], left[0], c, now) && ServersLeft(servers[1..], left[1..], c, now)
  }

  ghost predicate ClientsLeft(clients: seq<Session>, pinged: seq<bool>, left: seq<Session>, c: Config, now: nat)
    requires |clients| == |pinged|
    decreases |clients|
  {
    if clients == [] then left == []
    else if ClientDown(clients[0], c, now, pinged[0]) then ClientsLeft(clients[1..], pinged[1..], left, c, now)
    else
      && left != [] && KeepsClient(clients[0], left[0], c, now)
      && ClientsLeft(clients[1..], pinged[1..], left[1..], c, now)
  }

  lemma {:induction false} ServersAppend(servers: seq<Session>, left: seq<Session>, s: Session, s': Session, c: Config,
                                         now: nat)
    requires ServersLeft(servers, left, c, now)
    requires !ServerGone(s, c, now) ==> KeepsServer(s, s', c, now)
    ensures ServersLeft(servers + [s], if ServerGone(s, c, now) then left else left + [s'], c, now)
    decreases |servers|
  {
    if servers == [] {
      assert (servers + [s])[1..] == [] && (left + [s'])[1..] == [];
    } else {
      assert (servers + [s])[1..] == servers[1..] + [s];
      if ServerGone(servers[0], c, now) {
        ServersAppend(servers[1..], left, s, s', c, now);
      } else {
        assert (left + [s'])[1..] == left[1..] + [s'];
        ServersAppend(servers[1..], left[1..], s, s', c, now);
      }
    }
  }

  lemma {:induction false} ClientsAppend(clients: seq<Session>, pinged: seq<bool>, left: seq<Session>, s: Session,
                                         ping: bool, s': Session, c: Config, now: nat)
    requires |clients| == |pinged| && ClientsLeft(clients, pinged, left, c, now)
    requires !ClientDown(s, c, now, ping) ==> KeepsClient(s, s', c, now)
    ensures var left' := if ClientDown(s, c, now, ping) then left else left + [s'];
            ClientsLeft(clients + [s], pinged + [ping], left', c, now)
    decreases |clients|
  {
    if clients == [] {
      assert (clients + [s])[1..] == [] && (left + [s'])[1..] == [] && (pinged + [ping])[1..] == [];
    } else {
      assert (clients + [s])[1..] == clients[1..] + [s] && (pinged + [ping])[1..] == pinged[1..] + [ping];
      if ClientDown(clients[0], c, now, pinged[0]) {
        ClientsAppend(clients[1..], pinged[1..], left, s, ping, s', c, now);
      } else {
        assert (left + [s'])[1..] == left[1..] + [s'];
        ClientsAppend(clients[1..], pinged[1..], left[1..], s, ping, s', c, now);
      }
    }
  }

  lemma {:induction false} AfterIsLeftOfServers(servers: seq<Session>, n: nat, c: Config, now: nat)
    requires n <= |servers|
    ensures ServersLeft(servers[..n], ServersAfter(servers, n, c, now), c, now)
  {
    if n > 0 {
      var s := servers[n - 1];
      AfterIsLeftOfServers(servers, n - 1, c, now);
      KeptIsLeft(ServerSide, s.srcv, c.life, now);
      ServersAppend(servers[..n - 1], ServersAfter(servers, n - 1, c, now), s, ServerAfter(s, c, now), c, now);
      assert servers[..n] == servers[..n - 1] + [s];
      assert ServersAfter(servers, n - 1, c, now) + [] == ServersAfter(servers, n - 1, c, now);
    }
  }

  lemma {:induction false} AfterIsLeftOfClients(
    clients: seq<Session>, pinged: seq<bool>, n: nat, c: Config, now: nat)
    requires n <= |clients| == |pinged|
    ensures ClientsLeft(clients[..n], pinged[..n], ClientsAfter(clients, pinged, n, c, now), c, now)
  {
    if n > 0 {
      var s, before := clients[n - 1], ClientsAfter(clients, pinged, n - 1, c, now);
      AfterIsLeftOfClients(clients, pinged, n - 1, c, now);
      KeptIsLeft(ClientSide, s.crcv, c.life, now);
      ClientsAppend(clients[..n - 1], pinged[..n - 1], before, s, pinged[n - 1], ClientAfter(s, c, now), c, now);
      assert clients[..n] == clients[..n - 1] + [s] && pinged[..n] == pinged[..n - 1] + [pinged[n - 1]];
      assert before + [] == before;
    }
  }

  /** No entry that went in and has not expired expires before `now + t`. */
  ghost predicate WakesForPresent(side: Side, t: nat, now: nat, s: seq<Entry>, life: nat)
  {
    forall j :: 0 <= j < |s| && Finished(side, s[j]) && !Expired(side, s[j], life, now) ==>
      InTimeFor(t, now, s[j].lastUsed + life)
  }

  /** Whatever expires of a list later is left now, so the wake-up holds for the list that went in. */
  lemma {:induction false} WakesForAll(side: Side, t: nat, now: nat, s: seq<Entry>, left: seq<Entry>, life: nat)
    requires LeftOf(side, s, left, life, now) && WakesForEntries(side, t, now, left, life)
    ensures WakesForPresent(side, t, now, s, life)
    decreases |s|
  {
    if s != [] {
      var rest := if Expired(side, s[0], life, now) then left else left[1..];
      WakesForAll(side, t, now, s[1..], rest, life);
      assert forall j :: 1 <= j < |s| ==> s[j] == s[1..][j - 1];
    }
  }

  /** The first `n` sessions after the visit, without those that are freed or disconnected. */
  function ServersAfter(servers: seq<Session>, n: nat, c: Config, now: nat): seq<Session>
    requires n <= |servers|
  {
    if n == 0 then []
    else
      ServersAfter(servers, n - 1, c, now) +
      if ServerGone(servers[n - 1], c, now) then [] else [ServerAfter(servers[n - 1], c, now)]
  }

  function ClientsAfter(clients: seq<Session>, pinged: seq<bool>, n: nat, c: Config, now: nat): seq<Session>
    requires n <= |clients| == |pinged|
  {
    if n == 0 then []
    else
      ClientsAfter(clients, pinged, n - 1, c, now) +
      if ClientDown(clients[n - 1], c, now, pinged[n - 1]) then [] else [ClientAfter(clients[n - 1], c, now)]
  }

  /** A scan, if there is a list, and its share in the timeout. */
  method Scan(side: Side, entries: seq<Entry>, life: nat, now: nat, timeout: nat) returns (list: seq<Entry>, t: nat)
    requires InTime(entries, life)
    ensures list == Kept(side, entries, life, now)
    ensures WakesForEntries(side, t, now, list, life)
    ensures timeout > 0 ==> 0 < t <= timeout
    ensures t == timeout || t == INFINITE || DueEntry(side, t, now, list, life)
    ensures t == 0 <==> timeout == 0 && entries == []
  {
    list, t := entries, timeout;
    if entries != [] {
      var rem;
      list, rem := CheckTimeouts(side, entries, life, now);
      t := Sooner(timeout, rem);
    }
  }

  /** One session of an endpoint; `gone` when it is freed (src/coap_io.c:1096-1121). */
  method VisitServer(s: Session, c: Config, now: nat, timeout: nat) returns (gone: bool, s': Session, t: nat)
    requires Running(s, c)
    ensures gone <==> ServerGone(s, c, now)
    ensures gone <==> s.server && !s.busy && (s.lastRxTx + c.sessionTimeout <= now || s.stateNone)
    ensures !gone ==> KeepsServer(s, s', c, now)
    ensures gone ==> t == timeout
    ensures !gone ==> s' == ServerAfter(s, c, now) && WakesForServer(t, now, s', c)
    ensures !gone ==> t == timeout || t == INFINITE || DueServer(t, now, s', c)
    ensures t == 0 <==> timeout == 0 && !ServerWaits(s, c, now)
    ensures timeout > 0 ==> 0 < t <= timeout
  {
    gone, s', t := false, s, timeout;
    if s.server && !s.busy && (s.lastRxTx + c.sessionTimeout <= now || s.stateNone) {
      gone := true;
      return;
    }
    if s.server && !s.busy {
      t := Sooner(t, s.lastRxTx + c.sessionTimeout - now);
    }
    var list;
    list, t := Scan(ServerSide, s.srcv, c.life, now, t);
    s' := s.(srcv := list);
    KeptIsLeft(ServerSide, s.srcv, c.life, now);
  }

  /** A session of the context's own; `down` when it is disconnected (src/coap_io.c:1123-1172).
      `pinged` tells whether a ping could be sent. */
  method VisitClient(s: Session, c: Config, now: nat, pinged: bool, timeout: nat)
    returns (down: bool, s': Session, t: nat)
    requires Running(s, c) && now > 0
    ensures down ==> t == timeout
    ensures !down ==> t == timeout || t == INFINITE || DueClient(t, now, s', c)
    ensures t == 0 <==> timeout == 0 && !ClientWaits(s, c, now, pinged)
    ensures !down ==> s' == ClientAfter(s, c, now) && WakesForClient(t, now, s', c)
    ensures timeout > 0 ==> 0 < t <= timeout
    ensures down <==> ClientDown(s, c, now, pinged)
    // a ping is due and the last one was not answered, or none can be sent; or no CSM has come in time
    ensures down <==>
            || (&& !s.server && s.established && c.pingTimeout > 0 && s.lastRxTx + c.pingTimeout <= now
                && (!pinged || (s.lastPing > 0 && s.lastPong < s.lastPing)))
            || (&& !s.server && s.waitsForCsm && c.csmTimeout > 0
                && s.csmTx != 0 && s.csmTx + c.csmTimeout <= now)
    ensures !down ==> KeepsClient(s, s', c, now)
  {
    down, s', t := false, s, timeout;
    if !s.server && s.established && c.pingTimeout > 0 {
      if s.lastRxTx + c.pingTimeout <= now {
        if (s.lastPing > 0 && s.lastPong < s.lastPing) || !pinged {
          down := true;
          return;
        }
        s' := s'.(lastRxTx := now, lastPing := now);
      }
      t := Sooner(t, s'.lastRxTx + c.pingTimeout - now);
    }
    if !s.server && s.waitsForCsm && c.csmTimeout > 0 {
      if s.csmTx == 0 {
        s' := s'.(csmTx := now);
      } else if s.csmTx + c.csmTimeout <= now {
        down := true;
        return;
      }
      t := Sooner(t, s'.csmTx + c.csmTimeout - now);
    }
    var list;
    list, t := Scan(ClientSide, s.crcv, c.life, now, t);
    s' := s'.(crcv := list);
    KeptIsLeft(ClientSide, s.crcv, c.life, now);
  }

  /** The computation of coap_io_prepare_io: `asyncDue` and `nextPdu` are the delays (0 for none) to the next
      delayed request and retransmission, `pinged[i]` whether client session `i` can send a ping. */
  method PrepareIo(servers: seq<Session>, clients: seq<Session>, c: Config, now: nat, asyncDue: nat, nextPdu: nat,
                   pinged: seq<bool>, ticksPerSecond: nat)
    returns (servers': seq<Session>, clients': seq<Session>, timeout: nat, ms: nat)
    requires now > 0 && 0 < ticksPerSecond < WORD && |pinged| == |clients|
    requires forall i :: 0 <= i < |servers| ==> Running(servers[i], c)
    requires forall i :: 0 <= i < |clients| ==> Running(clients[i], c)
    ensures servers' == ServersAfter(servers, |servers|, c, now)
    ensures clients' == ClientsAfter(clients, pinged, |clients|, c, now)
    // the sessions left are those that are not freed or disconnected, in their order, with what they keep
    ensures ServersLeft(servers, servers', c, now) && ClientsLeft(clients, pinged, clients', c, now)
    // no pending moment is slept through
    ensures forall i :: 0 <= i < |servers'| ==> WakesForServer(timeout, now, servers'[i], c)
    ensures forall i :: 0 <= i < |clients'| ==> WakesForClient(timeout, now, clients'[i], c)
    ensures forall i :: 0 <= i < |servers| && !ServerGone(servers[i], c, now) ==>
              WakesForPresent(ServerSide, timeout, now, servers[i].srcv, c.life)
    ensures forall i :: 0 <= i < |clients| && !ClientDown(clients[i], c, now, pinged[i]) ==>
              WakesForPresent(ClientSide, timeout, now, clients[i].crcv, c.life)
    ensures asyncDue > 0 ==> 0 < timeout <= asyncDue
    ensures nextPdu > 0 ==> 0 < timeout <= nextPdu
    // and the wake-up is not early: it is one of the pending moments, or there is none
    ensures timeout in {asyncDue, nextPdu, INFINITE} || SomeServerDue(timeout, now, servers', c)
            || SomeClientDue(timeout, now, clients', c)
    // the timeout is 0 exactly if there is nothing to wait for
    ensures timeout == 0 <==>
            && asyncDue == 0 && nextPdu == 0
            && (forall i :: 0 <= i < |servers| ==> !ServerWaits(servers[i], c, now))
            && (forall i :: 0 <= i < |clients| ==> !ClientWaits(clients[i], c, now, pinged[i]))
    ensures ms == Millis(timeout, ticksPerSecond)
    // the milliseconds are the timeout rounded up exactly if something is due soon, or nothing waits
    ensures RoundedUp(ms, timeout, ticksPerSecond) <==>
            timeout == 0 || SomethingSoon(now, servers', clients', c, asyncDue, nextPdu, ticksPerSecond)
  {
    servers', timeout := VisitServers(servers, c, now, asyncDue);
    ghost var t1 := timeout;
    clients', timeout := VisitClients(clients, pinged, c, now, timeout);
    ghost var t2 := timeout;
    if nextPdu > 0 {
      timeout := Sooner(timeout, nextPdu);
    }
    forall k | 0 <= k < |servers'| ensures WakesForServer(timeout, now, servers'[k], c) {
      if timeout > 0 { EarlierServer(t1, timeout, now, servers'[k], c); }
    }
    forall k | 0 <= k < |clients'| ensures WakesForClient(timeout, now, clients'[k], c) {
      if timeout > 0 { EarlierClient(t2, timeout, now, clients'[k], c); }
    }
    ms := Millis(timeout, ticksPerSecond);
    AfterIsLeftOfServers(servers, |servers|, c, now);
    AfterIsLeftOfClients(clients, pinged, |clients|, c, now);
    assert servers[..|servers|] == servers && clients[..|clients|] == clients && pinged[..|pinged|] == pinged;
    ServersWake(timeout, servers, servers', c, now);
    ClientsWake(timeout, clients, pinged, clients', c, now);
    RoundedUpIffSoon(timeout, ticksPerSecond);
    SoonestDecides(timeout, now, servers', clients', c, asyncDue, nextPdu, ticksPerSecond);
  }

  lemma {:induction false} ServersWake(t: nat, servers: seq<Session>, left: seq<Session>, c: Config, now: nat)
    requires ServersLeft(servers, left, c, now)
    requires forall i :: 0 <= i < |left| ==> WakesForServer(t, now, left[i], c)
    ensures forall i :: 0 <= i < |servers| && !ServerGone(servers[i], c, now) ==>
              WakesForPresent(ServerSide, t, now, servers[i].srcv, c.life)
    decreases |servers|
  {
    if servers != [] {
      if ServerGone(servers[0], c, now) {
        ServersWake(t, servers[1..], left, c, now);
      } else {
        WakesForAll(ServerSide, t, now, servers[0].srcv, left[0].srcv, c.life);
        assert forall i :: 0 <= i < |left[1..]| ==> left[1..][i] == left[i + 1];
        ServersWake(t, servers[1..], left[1..], c, now);
      }
      assert forall i :: 1 <= i < |servers| ==> servers[i] == servers[1..][i - 1];
    }
  }

  lemma {:induction false} ClientsWake(t: nat, clients: seq<Session>, pinged: seq<bool>, left: seq<Session>, c: Config,
                                       now: nat)
    requires |clients| == |pinged| && ClientsLeft(clients, pinged, left, c, now)
    requires forall i :: 0 <= i < |left| ==> WakesForClient(t, now, left[i], c)
    ensures forall i :: 0 <= i < |clients| && !ClientDown(clients[i], c, now, pinged[i]) ==>
              WakesForPresent(ClientSide, t, now, clients[i].crcv, c.life)
    decreases |clients|
  {
    if clients != [] {
      if ClientDown(clients[0], c, now, pinged[0]) {
        ClientsWake(t, clients[1..], pinged[1..], left, c, now);
      } else {
        WakesForAll(ClientSide, t, now, clients[0].crcv, left[0].crcv, c.life);
        assert forall i :: 0 <= i < |left[1..]| ==> left[1..][i] == left[i + 1];
        ClientsWake(t, clients[1..], pinged[1..], left[1..], c, now);
      }
      assert forall i :: 1 <= i < |clients| ==> clients[i] == clients[1..][i - 1] && pinged[i] == pinged[1..][i - 1];
    }
  }

  // ----- the result in milliseconds -----

  /** The product is cut to the width of a tick value and the quotient to an unsigned int
      (src/coap_io.c:1254). */
  function Millis(timeout: nat, ticksPerSecond: nat): nat
    requires ticksPerSecond > 0
  {
    (timeout * 1000 + ticksPerSecond - 1) % TICKS / ticksPerSecond % WORD
  }

  predicate RoundedUp(ms: nat, timeout: nat, ticksPerSecond: nat)
  {
    ms * ticksPerSecond >= timeout * 1000 && (ms > 0 ==> (ms - 1) * ticksPerSecond < timeout * 1000)
  }

  /** `d` ticks are at most 2^32 - 1 milliseconds, 49.7 days. */
  predicate Soon(d: nat, ticksPerSecond: nat) { d * 1000 <= 0xFFFF_FFFF * ticksPerSecond }

  ghost predicate Pending(d: nat, now: nat, servers: seq<Session>, clients: seq<Session>, c: Config, asyncDue: nat,
                          nextPdu: nat)
  {
    || (d > 0 && (d == asyncDue || d == nextPdu))
    || SomeServerDue(d, now, servers, c) || SomeClientDue(d, now, clients, c)
  }

  ghost predicate SomethingSoon(now: nat, servers: seq<Session>, clients: seq<Session>, c: Config, asyncDue: nat,
                                nextPdu: nat, ticksPerSecond: nat)
  {
    exists d: nat :: Pending(d, now, servers, clients, c, asyncDue, nextPdu) && Soon(d, ticksPerSecond)
  }

  /** Only one number is the timeout rounded up. */
  lemma {:induction false} CeilingIsUnique(x: nat, n: nat, q: nat, r: nat)
    requires n > 0 && q * n >= x && (q > 0 ==> (q - 1) * n < x) && r * n >= x && (r > 0 ==> (r - 1) * n < x)
    ensures q == r
  {
    if q < r { MulMonotone(q, r - 1, n); }
    if r < q { MulMonotone(r, q - 1, n); }
  }

  lemma {:induction false} CeilingFits(x: nat, n: nat)
    requires n > 0
    ensures (x + n - 1) / n < WORD <==> x <= 0xFFFF_FFFF * n
    ensures (x + n - 1) / n < WORD && n < WORD ==> x + n - 1 < TICKS
  {
    RoundsUp(x, n);
    var q := (x + n - 1) / n;
    if q < WORD {
      MulMonotone(q, 0xFFFF_FFFF, n);
    } else {
      MulMonotone(0xFFFF_FFFF, q - 1, n);
    }
  }

  lemma {:induction false} RoundedUpIffSoon(timeout: nat, ticksPerSecond: nat)
    requires 0 < ticksPerSecond < WORD
    ensures RoundedUp(Millis(timeout, ticksPerSecond), timeout, ticksPerSecond) <==> Soon(timeout, ticksPerSecond)
  {
    var x, n := timeout * 1000, ticksPerSecond;
    var q, ms := (x + n - 1) / n, Millis(timeout, n);
    CeilingFits(x, n);
    RoundsUp(x, n);
    assert ms < WORD;
    if q < WORD {
      assert ms == q;
    }
    if RoundedUp(ms, timeout, n) {
      CeilingIsUnique(x, n, q, ms);
    }
  }

  lemma {:induction false} NeverIsNotSoon(ticksPerSecond: nat)
    requires ticksPerSecond < WORD
    ensures !Soon(INFINITE, ticksPerSecond)
  {
  }

  /** The timeout is soon if anything pending is. */
  lemma {:induction false} SoonestDecides(
    timeout: nat, now: nat, servers: seq<Session>, clients: seq<Session>, c: Config, asyncDue: nat, nextPdu: nat,
    ticksPerSecond: nat)
    requires ticksPerSecond < WORD
    requires timeout in {asyncDue, nextPdu, INFINITE} || SomeServerDue(timeout, now, servers, c)
             || SomeClientDue(timeout, now, clients, c)
    requires forall i :: 0 <= i < |servers| ==> WakesForServer(timeout, now, servers[i], c)
    requires forall i :: 0 <= i < |clients| ==> WakesForClient(timeout, now, clients[i], c)
    requires asyncDue > 0 ==> timeout <= asyncDue
    requires nextPdu > 0 ==> timeout <= nextPdu
    ensures Soon(timeout, ticksPerSecond) <==>
            timeout == 0 || SomethingSoon(now, servers, clients, c, asyncDue, nextPdu, ticksPerSecond)
  {
    NeverIsNotSoon(ticksPerSecond);
    if timeout > 0 && Soon(timeout, ticksPerSecond) {
      assert Pending(timeout, now, servers, clients, c, asyncDue, nextPdu);
    }
    forall d: nat | Pending(d, now, servers, clients, c, asyncDue, nextPdu)
      ensures timeout <= d
    {
    }
  }

  /** With nothing to wait for but an unfinished transfer of a client, the delay "never" comes out as 14.7 days. */
  method NeverInMillis(now: nat, c: Config) returns (ms: nat)
    requires now > 0 && c.life < INFINITE && c.sessionTimeout < INFINITE
    requires c.pingTimeout < INFINITE && c.csmTimeout < INFINITE
    ensures ms == 1271310319 && !RoundedUp(ms, INFINITE, 1000)
  {
    var s := Session(false, false, false, false, false, 0, 0, 0, 0, [], [Entry(0, 0, false)]);
    var servers', clients', timeout;
    servers', clients', timeout, ms := PrepareIo([], [s], c, now, 0, 0, [true], 1000);
    assert ClientsAfter([s], [true], 1, c, now) == ClientsAfter([s], [true], 0, c, now) + [ClientAfter(s, c, now)];
    assert Kept(ClientSide, s.crcv, c.life, now) == [Entry(0, 0, false)] by { UnfinishedIsKept(c.life, now); }
    assert ClientWaits([s][0], c, now, [true][0]);
    assert timeout == INFINITE;
    NeverIsNotSoon(1000);
    RoundedUpIffSoon(INFINITE, 1000);
  }

  lemma {:induction false} UnfinishedIsKept(life: nat, now: nat)
    ensures Kept(ClientSide, [Entry(0, 0, false)], life, now) == [Entry(0, 0, false)]
  {
    var e := Entry(0, 0, false);
    assert [e][..0] == [];
    assert Kept(ClientSide, [], life, now) == [];
  }

  ghost predicate SomeServerDue(t: nat, now: nat, servers: seq<Session>, c: Config)
  {
    exists i :: 0 <= i < |servers| && DueServer(t, now, servers[i], c)
  }

  ghost predicate SomeClientDue(t: nat, now: nat, clients: seq<Session>, c: Config)
  {
    exists i :: 0 <= i < |clients| && DueClient(t, now, clients[i], c)
  }

  method VisitServers(servers: seq<Session>, c: Config, now: nat, timeout: nat) returns (left: seq<Session>, t: nat)
    requires forall i :: 0 <= i < |servers| ==> Running(servers[i], c)
    ensures left == ServersAfter(servers, |servers|, c, now)
    ensures forall i :: 0 <= i < |left| ==> WakesForServer(t, now, left[i], c)
    ensures timeout > 0 ==> 0 < t <= timeout
    ensures t in {timeout, INFINITE} || SomeServerDue(t, now, left, c)
    ensures t == 0 <==> timeout == 0 && forall i :: 0 <= i < |servers| ==> !ServerWaits(servers[i], c, now)
  {
    left, t := [], timeout;
    for i := 0 to |servers|
      invariant left == ServersAfter(servers, i, c, now)
      invariant forall k :: 0 <= k < |left| ==> WakesForServer(t, now, left[k], c)
      invariant timeout > 0 ==> 0 < t <= timeout
      invariant t in {timeout, INFINITE} || SomeServerDue(t, now, left, c)
      invariant t == 0 <==> timeout == 0 && forall k :: 0 <= k < i ==> !ServerWaits(servers[k], c, now)
    {
      var gone, s, u := VisitServer(servers[i], c, now, t);
      if !gone {
        forall k | 0 <= k < |left| ensures WakesForServer(u, now, left[k], c) {
          if u > 0 { EarlierServer(t, u, now, left[k], c); }
        }
        GrowServers(u, now, left, s, c);
        left, t := left + [s], u;
      }
    }
  }

  method VisitClients(clients: seq<Session>, pinged: seq<bool>, c: Config, now: nat, timeout: nat)
    returns (left: seq<Session>, t: nat)
    requires now > 0 && |pinged| == |clients|
    requires forall i :: 0 <= i < |clients| ==> Running(clients[i], c)
    ensures left == ClientsAfter(clients, pinged, |clients|, c, now)
    ensures forall i :: 0 <= i < |left| ==> WakesForClient(t, now, left[i], c)
    ensures timeout > 0 ==> 0 < t <= timeout
    ensures t in {timeout, INFINITE} || SomeClientDue(t, now, left, c)
    ensures t == 0 <==> timeout == 0 && forall i :: 0 <= i < |clients| ==> !ClientWaits(clients[i], c, now, pinged[i])
  {
    left, t := [], timeout;
    for i := 0 to |clients|
      invariant left == ClientsAfter(clients, pinged, i, c, now)
      invariant forall k :: 0 <= k < |left| ==> WakesForClient(t, now, left[k], c)
      invariant timeout > 0 ==> 0 < t <= timeout
      invariant t in {timeout, INFINITE} || SomeClientDue(t, now, left, c)
      invariant t == 0 <==> timeout == 0 && forall k :: 0 <= k < i ==> !ClientWaits(clients[k], c, now, pinged[k])
    {
      var down, s, u := VisitClient(clients[i], c, now, pinged[i], t);
      if !down {
        forall k | 0 <= k < |left| ensures WakesForClient(u, now, left[k], c) {
          if u > 0 { EarlierClient(t, u, now, left[k], c); }
        }
        GrowClients(u, now, left, s, c);
        left, t := left + [s], u;
      }
    }
  }

  lemma {:induction false} GrowServers(t: nat, now: nat, servers: seq<Session>, s: Session, c: Config)
    ensures SomeServerDue(t, now, servers, c) || DueServer(t, now, s, c) ==> SomeServerDue(t, now, servers + [s], c)
  {
    var all := servers + [s];
    assert all[|servers|] == s && forall i :: 0 <= i < |servers| ==> all[i] == servers[i];
    if SomeServerDue(t, now, servers, c) {
      var i :| 0 <= i < |servers| && DueServer(t, now, servers[i], c);
      assert DueServer(t, now, all[i], c);
    }
  }

  lemma {:induction false} GrowClients(t: nat, now: nat, clients: seq<Session>, s: Session, c: Config)
    ensures SomeClientDue(t, now, clients, c) || DueClient(t, now, s, c) ==> SomeClientDue(t, now, clients + [s], c)
  {
    var all := clients + [s];
    assert all[|clients|] == s && forall i :: 0 <= i < |clients| ==> all[i] == clients[i];
    if SomeClientDue(t, now, clients, c) {
      var i :| 0 <= i < |clients| && DueClient(t, now, clients[i], c);
      assert DueClient(t, now, all[i], c);
    }
  }

  lemma {:induction false} RoundsUp(x: nat, n: nat)
    requires n > 0
    ensures var q := (x + n - 1) / n; q * n >= x && (q > 0 ==> (q - 1) * n < x)
  {
    var q := (x + n - 1) / n;
    assert q * n <= x + n - 1 < q * n + n;
    assert (q - 1) * n == q * n - n;
  }
}
