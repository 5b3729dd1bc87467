/** The `CallHandler` class of src/Server.ts: the registry of live connections,
    the session list, and one method per handler. `_send` appends to a ghost
    outbox, so what a handler sends is part of its postcondition; each method
    is proved to leave exactly the state and the outbox that the matching
    function of RelaySpec computes from the state it started in. */
module Relay {
  import opened Values
  import opened ClientRecord
  import opened Registry
  import opened RelaySpec

  /** The registry as values: each client with its fields in the current heap. */
  function ViewOf(cs: seq<Client>): (r: seq<ClientEntry>)
    reads cs
    ensures |r| == |cs| && forall i :: 0 <= i < |cs| ==> r[i] == Entry(cs[i], cs[i].View())
  {
    if cs == [] then []
    else ViewOf(cs[..|cs| - 1]) + [Entry(cs[|cs| - 1], cs[|cs| - 1].View())]
  }

  /** One more client adds its entry at the end. */
  lemma ViewOfSnoc(cs: seq<Client>, c: Client)
    ensures ViewOf(cs + [c]) == ViewOf(cs) + [Entry(c, c.View())]
  {
    assert (cs + [c])[..|cs|] == cs;
  }

  lemma ConnsOfView(cs: seq<Client>)
    ensures Conns(ViewOf(cs)) == cs
  {
  }

  lemma ViewOfAppend(a: seq<Client>, b: seq<Client>)
    ensures ViewOf(a + b) == ViewOf(a) + ViewOf(b)
  {
  }

  /** Deleting a client from the set removes its entry and keeps the others in order. */
  lemma {:induction false} ViewOfDelete(cs: seq<Client>, c: Client)
    ensures ViewOf(Delete(cs, c)) == Keep(ViewOf(cs), Other(c))
  {
    if cs != [] {
      var init, last := cs[..|cs| - 1], cs[|cs| - 1];
      ViewOfDelete(init, c);
      assert ViewOf(cs)[..|cs| - 1] == ViewOf(init);
      ViewOfAppend(Delete(init, c), if last == c then [] else [last]);
    }
  }

  /** The clients whose user id is not `uid`, in their order (the `filter` in
      `forcedLogout`). */
  function Survivors(cs: seq<Client>, uid: string): (r: seq<Client>)
    reads cs
    ensures |r| <= |cs|
  {
    if cs == [] then []
    else
      var init, last := cs[..|cs| - 1], cs[|cs| - 1];
      assert cs == init + [last];
      Survivors(init, uid) + (if last.userId != uid then [last] else [])
  }

  lemma {:induction false} ViewOfSurvivors(cs: seq<Client>, uid: string)
    ensures ViewOf(Survivors(cs, uid)) == Keep(ViewOf(cs), OtherUser(uid))
  {
    if cs != [] {
      var init, last := cs[..|cs| - 1], cs[|cs| - 1];
      ViewOfSurvivors(init, uid);
      assert ViewOf(cs)[..|cs| - 1] == ViewOf(init);
      ViewOfAppend(Survivors(init, uid), if last.userId != uid then [] else [last]);
      ViewOfAppend(Survivors(init, uid), if last.userId != uid then [last] else []);
    }
  }

  /** The `user_id` of each client, in order. */
  function UserIds(cs: seq<Client>): (r: seq<string>)
    reads cs
    ensures |r| == |cs| && forall i :: 0 <= i < |cs| ==> r[i] == cs[i].userId
  {
    if cs == [] then [] else UserIds(cs[..|cs| - 1]) + [cs[|cs| - 1].userId]
  }

  class CallHandler {
    var clients: seq<Client>
    var sessions: seq<Session>
    /** Every `_send(client, msg)` so far, in order. */
    ghost var outbox: seq<Send>

    /** A `Set` holds each connection once. */
    ghost predicate Valid()
      reads this`clients
    {
      Distinct(clients)
    }

    function Registry(): seq<ClientEntry>
      reads this`clients, clients
    {
      ViewOf(clients)
    }

    function State(): Relay
      reads this`clients, this`sessions, clients
    {
      Relay(Registry(), sessions)
    }

    constructor ()
      ensures Valid() && State() == Relay([], []) && outbox == []
    {
      clients, sessions, outbox := [], [], [];
    }

    /** `_send`: encoding, compression and the socket write are not modelled. */
    method Send(c: Client, m: Outbound)
      modifies this`outbox
      ensures outbox == old(outbox) + [Delivery(c, m)]
      ensures Registry() == old(Registry())
    {
      outbox := outbox + [Delivery(c, m)];
    }

    /** The `connection` event: `clients.add(client_self)`. */
    method Connect(c: Client)
      requires Valid()
      modifies this`clients
      ensures Valid()
      ensures State() == OnConnect(old(State()), c, c.View()).next
    {
      ConnsOfView(clients);
      ghost var before := clients;
      Attach(c);
      if c !in before {
        DistinctSnoc(before, c);
      }
    }

    /** The `peers` array both broadcast methods build: one record per client,
        in registry order. */
    method CollectPeers() returns (peers: seq<PeerInfo>)
      ensures peers == Snapshot(Registry())
    {
      var reg := Registry();
      peers := [];
      var i := 0;
      while i < |reg|
        invariant 0 <= i <= |reg|
        invariant peers == Snapshot(reg[..i])
      {
        assert reg[..i + 1] == reg[..i] + [reg[i]];
        SnapshotSnoc(reg[..i], reg[i]);
        peers := peers + [Info(reg[i])];
        i := i + 1;
      }
      assert reg[..i] == reg;
    }

    /** The records of the clients whose session id is `s`. */
    method CollectSessionPeers(s: string) returns (peers: seq<PeerInfo>)
      ensures peers == Snapshot(Keep(Registry(), InSession(s)))
    {
      var reg := Registry();
      peers := [];
      var i := 0;
      while i < |reg|
        invariant 0 <= i <= |reg|
        invariant peers == Snapshot(Keep(reg[..i], InSession(s)))
      {
        SessionSnapshotStep(reg, i, s);
        if reg[i].attrs.sessionId == s {
          peers := peers + [Info(reg[i])];
        }
        i := i + 1;
      }
      assert reg[..i] == reg;
    }

    /** `msg` written to every client, in registry order. */
    method SendToAll(msg: Outbound)
      modifies this`outbox
      ensures outbox == old(outbox) + Broadcast(old(Registry()), msg)
      ensures Registry() == old(Registry())
    {
      var reg := Registry();
      ghost var base := outbox;
      var i := 0;
      while i < |reg|
        invariant 0 <= i <= |reg|
        invariant outbox == base + Broadcast(reg[..i], msg)
        invariant Registry() == reg
      {
        BroadcastStep(reg, i, msg);
        ghost var sent := Broadcast(reg[..i], msg);
        Send(reg[i].conn, msg);
        AppendAssoc(base, sent, [Delivery(reg[i].conn, msg)]);
        i := i + 1;
      }
      assert reg[..i] == reg;
    }

    /** `msg` written to every client whose session id is not `s`. */
    method SendOutsideSession(s: string, msg: Outbound)
      modifies this`outbox
      ensures outbox == old(outbox) + Broadcast(Keep(old(Registry()), OutsideSession(s)), msg)
      ensures Registry() == old(Registry())
    {
      var reg := Registry();
      ghost var base := outbox;
      var i := 0;
      while i < |reg|
        invariant 0 <= i <= |reg|
        invariant outbox == base + Broadcast(Keep(reg[..i], OutsideSession(s)), msg)
        invariant Registry() == reg
      {
        FilteredBroadcastStep(reg, i, OutsideSession(s), msg);
        ghost var sent := Broadcast(Keep(reg[..i], OutsideSession(s)), msg);
        if reg[i].attrs.sessionId != s {
          Send(reg[i].conn, msg);
          AppendAssoc(base, sent, [Delivery(reg[i].conn, msg)]);
        }
        i := i + 1;
      }
      assert reg[..i] == reg;
    }

    /** Every client is sent the list of all clients. */
    method UpdatePeers()
      modifies this`outbox
      ensures outbox == old(outbox) + PeersUpdate(old(Registry()))
      ensures Registry() == old(Registry())
    {
      var peers := CollectPeers();
      SendToAll(Peers(peers));
    }

    /** Every client outside session `s` is sent the list of the clients inside it. */
    method UpdatePeersWithInCallPeers(s: string)
      modifies this`outbox
      ensures outbox == old(outbox) + CallUpdate(old(Registry()), s)
      ensures Registry() == old(Registry())
    {
      var peers := CollectSessionPeers(s);
      SendOutsideSession(s, Peers(peers));
    }

    /** `Array.from(clients).find(client => client.id == v)`. */
    method FindLoose(v: Scalar) returns (k: Option<nat>)
      ensures k == FirstLoose(Registry(), v)
    {
      var i := 0;
      while i < |clients|
        invariant 0 <= i <= |clients|
        invariant forall j :: 0 <= j < i ==> !LooseEquals(Registry()[j].attrs.id, v)
      {
        if LooseEquals(clients[i].id, v) {
          assert LooseEquals(Registry()[i].attrs.id, v);
          return Some(i);
        }
        i := i + 1;
      }
      return None;
    }

    /** `sessions.push(s)`. */
    method Record(s: Session)
      modifies this`sessions
      ensures sessions == old(sessions) + [s]
      ensures Registry() == old(Registry())
    {
      sessions := sessions + [s];
    }

    /** The `filter` of `onClose`: only the sessions with id `sid` are kept. */
    method Retain(sid: string)
      modifies this`sessions
      ensures sessions == SessionsWithId(old(sessions), sid)
      ensures Registry() == old(Registry())
    {
      sessions := SessionsWithId(sessions, sid);
    }

    /** `clients.delete(c)`. */
    method Detach(c: Client)
      modifies this`clients
      ensures c !in clients
      ensures forall x :: x in clients <==> x in old(clients) && x != c
      ensures Registry() == Keep(old(Registry()), Other(c))
    {
      ghost var reg := Registry();
      var rest := Delete(clients, c);
      ViewOfDelete(clients, c);
      DeleteMembers(clients, c);
      assert ViewOf(rest) == Keep(reg, Other(c));
      clients := rest;
      assert Registry() == ViewOf(rest);
    }

    /** `clients.add(c)`: a client already registered keeps its place. */
    method Attach(c: Client)
      modifies this`clients
      ensures c in old(clients) ==> Registry() == old(Registry())
      ensures c !in old(clients) ==> Registry() == old(Registry()) + [Entry(c, c.View())]
      ensures clients == if c in old(clients) then old(clients) else old(clients) + [c]
    {
      ghost var reg := Registry();
      var next := Add(clients, c);
      ViewOfAppend(clients, [c]);
      assert ViewOf(next) == if c in clients then reg else reg + [Entry(c, c.View())];
      clients := next;
      assert Registry() == ViewOf(next);
    }

    /** `c.in_call = status` on a client that is not registered at the moment. */
    method SetInCall(c: Client, status: bool)
      requires c !in clients
      modifies c
      ensures c.View() == old(c.View()).(inCall := status)
      ensures Registry() == old(Registry())
    {
      c.inCall := status;
    }

    /** `c.in_call = status` and `clients.add(c)` for a client that is not
        registered at the moment: it comes back at the end. */
    method Readd(c: Client, status: bool)
      requires c !in clients
      modifies this`clients, c
      ensures c in clients
      ensures Registry() == old(Registry()) + [Entry(c, old(c.View()).(inCall := status))]
    {
      SetInCall(c, status);
      Attach(c);
    }

    /** The tail of `updateSetEntriesCallStatus`: both clients, already taken out
        of the set, get the new status and are added back, `c1` first. When both
        ids name one client, the second assignment and the second `add` change
        nothing. */
    method Reattach(c1: Client, c2: Client, status: bool)
      requires c1 !in clients && c2 !in clients
      modifies this`clients, c1, c2
      ensures Registry() == old(Registry()) + [Entry(c1, old(c1.View()).(inCall := status))]
        + (if c2 == c1 then [] else [Entry(c2, old(c2.View()).(inCall := status))])
    {
      ghost var n2 := c2.View().(inCall := status);
      Readd(c1, status);
      if c2 != c1 {
        ghost var mid := Registry();
        Readd(c2, status);
        assert Registry() == mid + [Entry(c2, n2)];
      }
    }

    /** The body of `updateSetEntriesCallStatus` once both clients are found:
        delete both, set their status, add them back. */
    method MarkPair(c1: Client, c2: Client, status: bool)
      modifies this`clients, c1, c2
      ensures Registry() == Keep(Keep(old(Registry()), Other(c1)), Other(c2))
        + [Entry(c1, old(c1.View()).(inCall := status))]
        + (if c2 == c1 then [] else [Entry(c2, old(c2.View()).(inCall := status))])
    {
      ghost var kept := Keep(Keep(Registry(), Other(c1)), Other(c2));
      Detach(c1);
      Detach(c2);
      assert Registry() == kept;
      Reattach(c1, c2, status);
    }

    method UpdateSetEntriesCallStatus(status: bool, a: Scalar, b: Scalar)
      modifies this`clients, clients
      ensures Registry() == SetCallStatus(old(Registry()), status, a, b)
    {
      ghost var reg := Registry();
      var k1 := FindLoose(a);
      var k2 := FindLoose(b);
      if k1.None? || k2.None? {
        SetCallStatusMissing(reg, status, a, b);
        return;
      }
      var c1, c2 := clients[k1.value], clients[k2.value];
      assert reg[k1.value] == Entry(c1, c1.View()) && reg[k2.value] == Entry(c2, c2.View());
      SetCallStatusFound(reg, status, a, b, k1.value, k2.value);
      MarkPair(c1, c2, status);
    }

    /** The `forEach` of `push` and `offer`: the last client with `id === v`. */
    method FindLastStrict(v: Scalar) returns (k: Option<nat>)
      ensures k == LastWithId(Registry(), v)
    {
      ghost var reg := Registry();
      k := None;
      var i := 0;
      while i < |clients|
        invariant 0 <= i <= |clients|
        invariant k == LastWithId(reg[..i], v)
      {
        assert reg[..i + 1] == reg[..i] + [reg[i]];
        LastWithIdSnoc(reg[..i], reg[i], v);
        if StrictEquals(clients[i].id, v) {
          k := Some(i);
        }
        i := i + 1;
      }
      assert reg[..i] == reg;
    }

    /** The `forEach` over the sessions in `bye`: the last session with id `sid`. */
    method FindSession(sid: string) returns (j: Option<nat>)
      ensures j == LastSession(sessions, sid)
    {
      j := None;
      var i := 0;
      while i < |sessions|
        invariant 0 <= i <= |sessions|
        invariant j == LastSession(sessions[..i], sid)
      {
        assert sessions[..i + 1] == sessions[..i] + [sessions[i]];
        LastSessionSnoc(sessions[..i], sessions[i], sid);
        if sessions[i].id == sid {
          j := Some(i);
        }
        i := i + 1;
      }
      assert sessions[..i] == sessions;
    }

    /** `msg` written to every client with `id === to` and `session_id === sid`. */
    method SendDirected(to: string, sid: string, msg: Outbound)
      modifies this`outbox
      ensures outbox == old(outbox) + Directed(old(Registry()), to, sid, msg)
      ensures Registry() == old(Registry())
    {
      var reg := Registry();
      ghost var base := outbox;
      var i := 0;
      while i < |reg|
        invariant 0 <= i <= |reg|
        invariant outbox == base + Broadcast(Keep(reg[..i], Addressed(to, sid)), msg)
        invariant Registry() == reg
      {
        FilteredBroadcastStep(reg, i, Addressed(to, sid), msg);
        ghost var sent := Broadcast(Keep(reg[..i], Addressed(to, sid)), msg);
        if reg[i].attrs.id == to && reg[i].attrs.sessionId == sid {
          Send(reg[i].conn, msg);
          AppendAssoc(base, sent, [Delivery(reg[i].conn, msg)]);
        }
        i := i + 1;
      }
      assert reg[..i] == reg;
    }

    /** The `leave` of `onClose`: `msg` to every client other than `self`. */
    method SendToOthers(self: Client, msg: Outbound)
      modifies this`outbox
      ensures outbox == old(outbox) + Broadcast(Keep(old(Registry()), Other(self)), msg)
      ensures Registry() == old(Registry())
    {
      var reg := Registry();
      ghost var base := outbox;
      var i := 0;
      while i < |reg|
        invariant 0 <= i <= |reg|
        invariant outbox == base + Broadcast(Keep(reg[..i], Other(self)), msg)
        invariant Registry() == reg
      {
        FilteredBroadcastStep(reg, i, Other(self), msg);
        ghost var sent := Broadcast(Keep(reg[..i], Other(self)), msg);
        if reg[i].conn != self {
          Send(reg[i].conn, msg);
          AppendAssoc(base, sent, [Delivery(reg[i].conn, msg)]);
        }
        i := i + 1;
      }
      assert reg[..i] == reg;
    }

    /** The `bye` forwarded to every client of session `sid`. */
    method SendByes(sess: Session, sid: string, from: Blob, callBack: Blob)
      modifies this`outbox
      ensures outbox == old(outbox) + ByeNotices(old(Registry()), sess, sid, from, callBack)
      ensures Registry() == old(Registry())
    {
      var reg := Registry();
      ghost var base := outbox;
      var i := 0;
      while i < |reg|
        invariant 0 <= i <= |reg|
        invariant outbox == base + ByeNotices(reg[..i], sess, sid, from, callBack)
        invariant Registry() == reg
      {
        var e := reg[i];
        assert reg[..i + 1] == reg[..i] + [e];
        ByeNoticesSnoc(reg[..i], e, sess, sid, from, callBack);
        ghost var sent := ByeNotices(reg[..i], sess, sid, from, callBack);
        if e.attrs.sessionId == sid {
          var d := Delivery(e.conn, ByeNotice(sid, from, if e.attrs.id == sess.from then sess.to else sess.from, callBack));
          Send(d.to, d.msg);
          AppendAssoc(base, sent, [d]);
        }
        i := i + 1;
      }
      assert reg[..i] == reg;
    }

    /** `new`: the sender's fields are overwritten, then everybody gets the list. */
    method Rename(self: Client, id: Scalar, userId: string, inCall: bool)
      modifies self
      ensures self.View() == old(self.View()).(id := Coerce(id), userId := userId, inCall := inCall)
      ensures Registry() == Replace(old(Registry()), self, self.View())
    {
      ghost var reg := Registry();
      self.id := Coerce(id);
      self.userId := userId;
      self.inCall := inCall;
      assert forall i :: 0 <= i < |clients| ==> Registry()[i] == Replace(reg, self, self.View())[i];
    }

    /** `offer`: the peer and the sender are tagged with the session id. */
    method TagPair(peer: Client, self: Client, sid: string)
      modifies peer, self
      ensures peer.View() == old(peer.View()).(sessionId := sid)
      ensures self.View() == old(self.View()).(sessionId := sid)
      ensures Registry() == Tag(old(Registry()), peer, self, sid)
      ensures sessions == old(sessions) && outbox == old(outbox)
    {
      ghost var reg := Registry();
      peer.sessionId := sid;
      self.sessionId := sid;
      assert forall i :: 0 <= i < |clients| ==> Registry()[i] == Tag(reg, peer, self, sid)[i];
    }

    /** The callee of an `offer` is sent the offer; then both ends are tagged
        with the session id. */
    method Notify(peer: Client, self: Client, sid: string, media: Blob, fromUser: Blob, description: Blob)
      modifies peer, self, this`outbox
      ensures outbox == old(outbox) + [Delivery(peer, OfferNotice(old(peer.id), old(self.id), media, fromUser, sid, description))]
      ensures Registry() == Tag(old(Registry()), peer, self, sid)
      ensures sessions == old(sessions)
      ensures self.View() == old(self.View()).(sessionId := sid)
    {
      Send(peer, OfferNotice(peer.id, self.id, media, fromUser, sid, description));
      TagPair(peer, self, sid);
    }

    method New(self: Client, id: Scalar, userId: string, inCall: bool)
      modifies self, this`outbox
      ensures State() == OnNew(old(State()), self, old(self.View()), id, userId, inCall).next
      ensures outbox == old(outbox) + OnNew(old(State()), self, old(self.View()), id, userId, inCall).sent
      ensures self.View() == old(self.View()).(id := Coerce(id), userId := userId, inCall := inCall)
    {
      Rename(self, id, userId, inCall);
      UpdatePeers();
    }

    method Push(to: Scalar, fromUser: Blob)
      modifies this`outbox
      ensures outbox == old(outbox) + OnPush(old(State()), to, fromUser).sent
      ensures Registry() == old(Registry())
    {
      var k := FindLastStrict(to);
      if k.Some? {
        var receiver := clients[k.value];
        Send(receiver, PushNotice(receiver.id, fromUser));
      }
    }

    method Offer(self: Client, to: Scalar, sid: string, media: Blob, fromUser: Blob, description: Blob)
      modifies self, clients, this`sessions, this`outbox
      ensures State() == OnOffer(old(State()), self, old(self.View()), to, sid, media, fromUser, description).next
      ensures outbox == old(outbox) + OnOffer(old(State()), self, old(self.View()), to, sid, media, fromUser, description).sent
      ensures self.View() == if LastWithId(old(Registry()), to).Some? then old(self.View()).(sessionId := sid) else old(self.View())
    {
      var k := FindLastStrict(to);
      if k.Some? {
        OfferTo(self, k.value, to, sid, media, fromUser, description);
      }
    }

    /** `offer` when the callee is registered: it is the last client with `id === to`,
        at position `k`. */
    method OfferTo(self: Client, k: nat, to: Scalar, sid: string, media: Blob, fromUser: Blob, description: Blob)
      requires LastWithId(Registry(), to) == Some(k)
      modifies self, clients, this`sessions, this`outbox
      ensures State() == OnOffer(old(State()), self, old(self.View()), to, sid, media, fromUser, description).next
      ensures outbox == old(outbox) + OnOffer(old(State()), self, old(self.View()), to, sid, media, fromUser, description).sent
      ensures self.View() == old(self.View()).(sessionId := sid)
    {
      ghost var st, me := State(), self.View();
      OfferFound(st, self, me, to, sid, media, fromUser, description, k);
      var peer := clients[k];
      assert st.reg[k] == Entry(peer, peer.View());
      Notify(peer, self, sid, media, fromUser, description);
      Record(Session(sid, self.id, peer.id));
    }

    method Answer(self: Client, to: Scalar, sid: string, description: Blob)
      modifies this`clients, clients, this`outbox
      ensures State() == OnAnswer(old(State()), old(self.View()), to, sid, description).next
      ensures outbox == old(outbox) + OnAnswer(old(State()), old(self.View()), to, sid, description).sent
    {
      ghost var st, sent := State(), outbox;
      var me := self.id;
      SendDirected(Coerce(to), sid, AnswerNotice(me, to, description));
      ghost var directed := Directed(st.reg, Coerce(to), sid, AnswerNotice(me, to, description));
      MarkCall(true, Str(me), to, sid);
      AppendAssoc(sent, directed, CallUpdate(Registry(), sid));
    }

    /** The two steps after an `answer`: both ends get `in_call = status`, then
        the clients outside session `sid` get its list. */
    method MarkCall(status: bool, a: Scalar, b: Scalar, sid: string)
      modifies this`clients, clients, this`outbox
      ensures Registry() == SetCallStatus(old(Registry()), status, a, b)
      ensures sessions == old(sessions)
      ensures outbox == old(outbox) + CallUpdate(Registry(), sid)
    {
      UpdateSetEntriesCallStatus(status, a, b);
      UpdatePeersWithInCallPeers(sid);
    }

    method Candidate(self: Client, to: Scalar, sid: string, candidate: Blob)
      modifies this`outbox
      ensures outbox == old(outbox) + OnCandidate(old(State()), old(self.View()), to, sid, candidate).sent
      ensures Registry() == old(Registry())
    {
      SendDirected(Coerce(to), sid, CandidateNotice(self.id, to, candidate));
    }

    /** The end of a call found by `bye`: both legs get `in_call = false`, the
        session's clients get the `bye`, the others the session's list. */
    method EndCall(sess: Session, sid: string, from: Blob, callBack: Blob)
      modifies this`clients, clients, this`outbox
      ensures State() == CallEnded(old(State()), sess, sid, from, callBack).next
      ensures outbox == old(outbox) + CallEnded(old(State()), sess, sid, from, callBack).sent
    {
      ghost var st := State();
      UpdateSetEntriesCallStatus(false, Str(sess.from), Str(sess.to));
      AnnounceEnd(sess, sid, from, callBack);
      assert State() == Relay(SetCallStatus(st.reg, false, Str(sess.from), Str(sess.to)), st.sessions);
    }

    /** The messages of a finished call: the `bye` notices, then the session's
        list to everyone outside it. */
    method AnnounceEnd(sess: Session, sid: string, from: Blob, callBack: Blob)
      modifies this`outbox
      ensures outbox == old(outbox) + (ByeNotices(old(Registry()), sess, sid, from, callBack)
                                       + CallUpdate(old(Registry()), sess.id))
      ensures Registry() == old(Registry())
    {
      ghost var sent := outbox;
      ghost var reg := Registry();
      SendByes(sess, sid, from, callBack);
      ghost var byes := ByeNotices(reg, sess, sid, from, callBack);
      UpdatePeersWithInCallPeers(sess.id);
      AppendAssoc(sent, byes, CallUpdate(reg, sess.id));
    }

    method Bye(self: Client, sid: string, from: Blob, callBack: Blob)
      modifies this`clients, clients, this`outbox
      ensures State() == OnBye(old(State()), self, sid, from, callBack).next
      ensures outbox == old(outbox) + OnBye(old(State()), self, sid, from, callBack).sent
    {
      var j := FindSession(sid);
      if j.None? {
        Send(self, ErrorNotice("Invalid session " + sid));
      } else {
        ByeKnown(self, sid, from, callBack, j.value);
      }
    }

    /** `bye` for a session that is on the list: its last entry with id `sid`
        is at `j`. */
    method ByeKnown(self: Client, sid: string, from: Blob, callBack: Blob, j: nat)
      requires LastSession(sessions, sid) == Some(j)
      modifies this`clients, clients, this`outbox
      ensures State() == OnBye(old(State()), self, sid, from, callBack).next
      ensures outbox == old(outbox) + OnBye(old(State()), self, sid, from, callBack).sent
    {
      ByeFound(State(), self, sid, from, callBack, j);
      EndCall(sessions[j], sid, from, callBack);
    }

    method KeepAlive(self: Client)
      modifies this`outbox
      ensures outbox == old(outbox) + [Delivery(self, KeepAliveEcho)]
      ensures Registry() == old(Registry())
    {
      Send(self, KeepAliveEcho);
    }

    /** The message switch of the `message` listener. */
    method Dispatch(self: Client, frame: Frame)
      modifies this`clients, this`sessions, this`outbox, clients, self
      ensures State() == OnMessage(old(State()), self, old(self.View()), frame).next
      ensures outbox == old(outbox) + OnMessage(old(State()), self, old(self.View()), frame).sent
      ensures self !in old(clients) ==> self.View() == SenderAfter(old(State()), old(self.View()), frame)
    {
      ghost var st, me := State(), self.View();
      if frame.Corrupt? {
        return;
      }
      match frame.msg
      case New(id, userId, inCall) =>
        DispatchNew(st, self, me, id, userId, inCall);
        New(self, id, userId, inCall);
      case Push(to, fromUser) =>
        DispatchPush(st, self, me, to, fromUser);
        Push(to, fromUser);
      case Offer(to, sid, media, fromUser, description) =>
        DispatchOffer(st, self, me, to, sid, media, fromUser, description);
        Offer(self, to, sid, media, fromUser, description);
      case Answer(to, sid, description) =>
        DispatchAnswer(st, self, me, to, sid, description);
        Answer(self, to, sid, description);
      case Candidate(to, sid, candidate) =>
        DispatchCandidate(st, self, me, to, sid, candidate);
        Candidate(self, to, sid, candidate);
      case Bye(sid, from, callBack) =>
        DispatchBye(st, self, me, sid, from, callBack);
        Bye(self, sid, from, callBack);
      case KeepAlive =>
        assert OnMessage(st, self, me, frame) == Outcome(st, [Delivery(self, KeepAliveEcho)]);
        assert SenderAfter(st, me, frame) == me;
        KeepAlive(self);
      case Unhandled(_) =>
    }

    /** The `message` listener: one decoded frame, handled to completion; the
        connections stay distinct. */
    method Receive(self: Client, frame: Frame)
      requires Valid()
      modifies this`clients, this`sessions, this`outbox, clients, self
      ensures Valid()
      ensures State() == OnMessage(old(State()), self, old(self.View()), frame).next
      ensures outbox == old(outbox) + OnMessage(old(State()), self, old(self.View()), frame).sent
      ensures self !in old(clients) ==> self.View() == SenderAfter(old(State()), old(self.View()), frame)
    {
      ConnsOfView(clients);
      MessageKeepsWellformed(State(), self, self.View(), frame);
      Dispatch(self, frame);
      ConnsOfView(clients);
    }

    /** The work of the `close` listener: the connection is deleted, its session
        filter is applied, the others are told it left, and everybody gets the list. */
    method Disconnect(self: Client)
      modifies this`clients, this`sessions, this`outbox
      ensures State() == OnClose(old(State()), self, self.View()).next
      ensures outbox == old(outbox) + OnClose(old(State()), self, self.View()).sent
    {
      ghost var st, sent, me := State(), outbox, self.View();
      Detach(self);
      ghost var reg := Registry();
      assert reg == Keep(st.reg, Other(self));
      var sid := self.sessionId;
      if sid != "" {
        Retain(sid);
      }
      assert Registry() == reg && outbox == sent;
      SendToOthers(self, Leave(self.id));
      ghost var leaves := Broadcast(Keep(reg, Other(self)), Leave(me.id));
      assert Registry() == reg && outbox == sent + leaves;
      UpdatePeers();
      assert Registry() == reg;
      AppendAssoc(sent, leaves, PeersUpdate(reg));
    }

    /** The `close` listener; the connections stay distinct. */
    method Close(self: Client)
      requires Valid()
      modifies this`clients, this`sessions, this`outbox
      ensures Valid()
      ensures State() == OnClose(old(State()), self, self.View()).next
      ensures outbox == old(outbox) + OnClose(old(State()), self, self.View()).sent
    {
      ConnsOfView(clients);
      CloseKeepsWellformed(State(), self, self.View());
      Disconnect(self);
      ConnsOfView(clients);
    }

    method ForcedLogout(channel: string, uid: string)
      requires Valid()
      modifies this`clients
      ensures Valid()
      ensures State() == RelaySpec.ForcedLogout(old(State()), channel, uid)
    {
      if channel != "force_logout" {
        return;
      }
      ghost var reg := Registry();
      ConnsOfView(clients);
      ForcedLogoutKeepsWellformed(State(), channel, uid);
      ViewOfSurvivors(clients, uid);
      clients := Survivors(clients, uid);
      assert Registry() == Keep(reg, OtherUser(uid));
      ConnsOfView(clients);
    }

    /** The `peerNo` getter: the live size of the set, which is what the state
        machine's `PeerCount` counts; unlike the earlier revision nothing is
        cached. */
    function PeerNo(): (n: nat)
      reads this`clients, clients
      ensures n == PeerCount(State())
    {
      |clients|
    }

    /** The `peers` getter: the clients' user ids in set order, joined with
        commas. When no user id holds a comma, splitting the list at its commas
        gives back each client's user id, in order. */
    function PeerList(): (r: string)
      reads this`clients, clients
      ensures clients == [] ==> r == ""
      ensures |clients| >= 1 && (forall i :: 0 <= i < |clients| ==> Commas(clients[i].userId) == 0)
        ==> Commas(r) == |clients| - 1 && |Split(r)| == |clients|
            && forall i :: 0 <= i < |clients| ==> Split(r)[i] == clients[i].userId
    {
      var ids := UserIds(clients);
      if |clients| >= 1 && (forall i :: 0 <= i < |clients| ==> Commas(clients[i].userId) == 0) then
        JoinSeparators(ids);
        SplitJoin(ids);
        Join(ids)
      else
        Join(ids)
    }
  }
}
