/** The `CallHandler` class of src/Server.js: the socket registry, the session
    list, the cached `peer_no`, and one method per handler. `_send` appends to a
    ghost outbox; each method is proved to leave exactly the state and the
    outbox that the matching function of LegacySpec computes. */
module Legacy {
  import opened Values
  import opened Registry
  import opened Sockets
  import opened LegacySpec

  /** The registry as values: each socket with its properties in the current heap. */
  function ViewOf(cs: seq<Socket>): (r: seq<SocketEntry>)
    reads cs
    ensures |r| == |cs| && forall i :: 0 <= i < |cs| ==> r[i] == Entry(cs[i], cs[i].View())
  {
    if cs == [] then []
    else ViewOf(cs[..|cs| - 1]) + [Entry(cs[|cs| - 1], cs[|cs| - 1].View())]
  }

  lemma ConnsOfView(cs: seq<Socket>)
    ensures Conns(ViewOf(cs)) == cs
  {
  }

  lemma ViewOfAppend(a: seq<Socket>, b: seq<Socket>)
    ensures ViewOf(a + b) == ViewOf(a) + ViewOf(b)
  {
  }

  /** Deleting a socket from the set removes its entry and keeps the others in order. */
  lemma {:induction false} ViewOfDelete(cs: seq<Socket>, c: Socket)
    ensures ViewOf(Delete(cs, c)) == Keep(ViewOf(cs), Other(c))
  {
    if cs != [] {
      var init, last := cs[..|cs| - 1], cs[|cs| - 1];
      ViewOfDelete(init, c);
      assert ViewOf(cs)[..|cs| - 1] == ViewOf(init);
      ViewOfAppend(Delete(init, c), if last == c then [] else [last]);
    }
  }

  class CallHandler {
    var clients: seq<Socket>
    var sessions: seq<Session>
    var peerNo: nat
    /** Every `_send(client, msg)` so far, in order. */
    ghost var outbox: seq<Send>

    /** A `Set` holds each socket once. */
    ghost predicate Valid()
      reads this`clients
    {
      Distinct(clients)
    }

    function Registry(): seq<SocketEntry>
      reads this`clients, clients
    {
      ViewOf(clients)
    }

    function State(): LegacySpec.Legacy
      reads this`clients, this`sessions, this`peerNo, clients
    {
      LegacySpec.Legacy(Registry(), sessions, peerNo)
    }

    constructor ()
      ensures Valid() && State() == LegacySpec.Legacy([], [], 0) && outbox == []
    {
      clients, sessions, peerNo, outbox := [], [], 0, [];
    }

    /** `_send`: encoding and the socket write are not modelled. */
    method Send(c: Socket, m: Outbound)
      modifies this`outbox
      ensures outbox == old(outbox) + [Delivery(c, m)]
      ensures Registry() == old(Registry())
    {
      outbox := outbox + [Delivery(c, m)];
    }

    /** `clients.add(c)`: a socket already registered keeps its place. */
    method Attach(c: Socket)
      modifies this`clients
      ensures clients == if c in old(clients) then old(clients) else old(clients) + [c]
      ensures Registry() == if c in old(clients) then old(Registry()) else old(Registry()) + [Entry(c, c.View())]
    {
      ghost var reg := Registry();
      var next := Add(clients, c);
      ViewOfAppend(clients, [c]);
      assert ViewOf(next) == if c in clients then reg else reg + [Entry(c, c.View())];
      clients := next;
    }

    /** The `connection` event: `clients.add(client_self)`. */
    method Connect(c: Socket)
      requires Valid()
      modifies this`clients
      ensures Valid()
      ensures State() == OnConnect(old(State()), c, c.View()).next
    {
      ConnsOfView(clients);
      ghost var before := clients;
      Attach(c);
      if c !in before {
        DistinctSnoc(before, c);
      }
    }

    /** `clients.delete(c)`. */
    method Detach(c: Socket)
      modifies this`clients
      ensures Registry() == Keep(old(Registry()), Other(c))
    {
      ghost var reg := Registry();
      var rest := Delete(clients, c);
      ViewOfDelete(clients, c);
      assert ViewOf(rest) == Keep(reg, Other(c));
      clients := rest;
    }

    /** The `peers` array of `updatePeers`: one record per socket, with the
        properties it has. */
    method CollectPeers() returns (peers: seq<Props>)
      ensures peers == Snapshot(Registry())
    {
      var reg := Registry();
      peers := [];
      var i := 0;
      while i < |reg|
        invariant 0 <= i <= |reg|
        invariant peers == Snapshot(reg[..i])
      {
        assert reg[..i + 1] == reg[..i] + [reg[i]];
        SnapshotSnoc(reg[..i], reg[i]);
        peers := peers + [reg[i].attrs];
        i := i + 1;
      }
      assert reg[..i] == reg;
    }

    /** `msg` written to every socket, in registry order. */
    method SendToAll(msg: Outbound)
      modifies this`outbox
      ensures outbox == old(outbox) + Broadcast(old(Registry()), msg)
      ensures Registry() == old(Registry())
    {
      var reg := Registry();
      ghost var base := outbox;
      var i := 0;
      while i < |reg|
        invariant 0 <= i <= |reg|
        invariant outbox == base + Broadcast(reg[..i], msg)
        invariant Registry() == reg
      {
        BroadcastStep(reg, i, msg);
        ghost var sent := Broadcast(reg[..i], msg);
        Send(reg[i].conn, msg);
        AppendAssoc(base, sent, [Delivery(reg[i].conn, msg)]);
        i := i + 1;
      }
      assert reg[..i] == reg;
    }

    /** `updatePeers`: `peer_no` is reset, set to the number of records, and
        every socket is sent the list. */
    method UpdatePeers()
      modifies this`peerNo, this`outbox
      ensures State() == LegacySpec.UpdatePeers(old(State())).next
      ensures outbox == old(outbox) + LegacySpec.UpdatePeers(old(State())).sent
    {
      var peers := CountPeers();
      SendToAll(Peers(peers));
    }

    /** The first half of `updatePeers`: the list is built and its length cached. */
    method CountPeers() returns (peers: seq<Props>)
      modifies this`peerNo
      ensures peers == Snapshot(Registry()) && peerNo == |Registry()|
    {
      peerNo := 0;
      peers := CollectPeers();
      peerNo := |peers|;
    }

    /** The `getPeerNo` getter: the cached count, not the live one. That the
        cache is the socket count after `updatePeers` and lags behind a new
        connection is proved by `LegacySpec.UpdatePeersEffect`,
        `LegacySpec.PeerNoIsCached` and `LegacySpec.CloseState`. */
    function GetPeerNo(): (n: nat)
      reads this`peerNo
      ensures n == State().peerNo
    {
      peerNo
    }

    /** The `getPeers` getter: each socket's name, or an empty string for a
        socket without one, comma-joined. */
    method GetPeers() returns (r: string)
      ensures r == PeerNames(Registry())
    {
      var reg := Registry();
      var names: seq<string> := [];
      var i := 0;
      while i < |clients|
        invariant 0 <= i <= |clients|
        invariant |names| == i && forall k :: 0 <= k < i ==> names[k] == NameOrEmpty(reg[k].attrs.name)
      {
        names := names + [NameOrEmpty(clients[i].name)];
        i := i + 1;
      }
      assert names == seq(|reg|, k requires 0 <= k < |reg| => NameOrEmpty(reg[k].attrs.name));
      r := Join(names);
    }

    /** The loop of `onClose`: the first session with id `sid` is spliced out
        and the loop stops. */
    method RemoveFirstSession(sid: string)
      modifies this`sessions
      ensures sessions == RemoveFirst(old(sessions), sid)
      ensures Registry() == old(Registry())
    {
      var i := 0;
      while i < |sessions|
        invariant 0 <= i <= |sessions| && sessions == old(sessions)
        invariant FirstSessionFrom(sessions, sid, 0) == FirstSessionFrom(sessions, sid, i)
      {
        if sessions[i].id == sid {
          sessions := sessions[..i] + sessions[i + 1..];
          return;
        }
        i := i + 1;
      }
    }

    /** The `leave` of `onClose`: `msg` to every socket other than `self`. */
    method SendToOthers(self: Socket, msg: Outbound)
      modifies this`outbox
      ensures outbox == old(outbox) + Broadcast(Keep(old(Registry()), Other(self)), msg)
      ensures Registry() == old(Registry())
    {
      var reg := Registry();
      ghost var base := outbox;
      var i := 0;
      while i < |reg|
        invariant 0 <= i <= |reg|
        invariant outbox == base + Broadcast(Keep(reg[..i], Other(self)), msg)
        invariant Registry() == reg
      {
        FilteredBroadcastStep(reg, i, Other(self), msg);
        ghost var sent := Broadcast(Keep(reg[..i], Other(self)), msg);
        if reg[i].conn != self {
          Send(reg[i].conn, msg);
          AppendAssoc(base, sent, [Delivery(reg[i].conn, msg)]);
        }
        i := i + 1;
      }
      assert reg[..i] == reg;
    }

    /** The work of the `close` listener: the socket is deleted, the first
        session with its session id (if it has one) is removed, the others are
        told it left, and `updatePeers` runs. */
    method Disconnect(self: Socket)
      modifies this`clients, this`sessions, this`peerNo, this`outbox
      ensures State() == OnClose(old(State()), self, self.View()).next
      ensures outbox == old(outbox) + OnClose(old(State()), self, self.View()).sent
    {
      ghost var st, sent, me := State(), outbox, self.View();
      Detach(self);
      ghost var reg := Registry();
      if self.sessionId.Some? {
        RemoveFirstSession(self.sessionId.value);
      }
      assert Registry() == reg && outbox == sent;
      SendToOthers(self, Leave(self.id));
      ghost var leaves := Broadcast(Keep(reg, Other(self)), Leave(me.id));
      assert Registry() == reg && outbox == sent + leaves;
      ghost var before := State();
      UpdatePeers();
      AppendAssoc(sent, leaves, LegacySpec.UpdatePeers(before).sent);
    }

    /** The `close` listener; the sockets stay distinct. */
    method Close(self: Socket)
      requires Valid()
      modifies this`clients, this`sessions, this`peerNo, this`outbox
      ensures Valid()
      ensures State() == OnClose(old(State()), self, self.View()).next
      ensures outbox == old(outbox) + OnClose(old(State()), self, self.View()).sent
    {
      ConnsOfView(clients);
      CloseKeepsWellformed(State(), self, self.View());
      Disconnect(self);
      ConnsOfView(clients);
    }

    /** `new`: the sender's id, name and user agent are set, then `updatePeers`. */
    method New(self: Socket, id: Scalar, name: Blob, userAgent: Blob)
      modifies self, this`peerNo, this`outbox
      ensures State() == OnNew(old(State()), self, old(self.View()), id, name, userAgent).next
      ensures outbox == old(outbox) + OnNew(old(State()), self, old(self.View()), id, name, userAgent).sent
      ensures self.View() == old(self.View()).(id := Some(Coerce(id)), name := Some(name), userAgent := Some(userAgent))
    {
      ghost var st, me := State(), self.View();
      Rename(self, id, name, userAgent);
      assert State() == st.(reg := Replace(st.reg, self, me.(id := Some(Coerce(id)), name := Some(name), userAgent := Some(userAgent))));
      UpdatePeers();
    }

    /** The assignments of `new`. */
    method Rename(self: Socket, id: Scalar, name: Blob, userAgent: Blob)
      modifies self
      ensures self.View() == old(self.View()).(id := Some(Coerce(id)), name := Some(name), userAgent := Some(userAgent))
      ensures Registry() == Replace(old(Registry()), self, self.View())
    {
      ghost var reg := Registry();
      self.id := Some(Coerce(id));
      self.name := Some(name);
      self.userAgent := Some(userAgent);
      assert forall i :: 0 <= i < |clients| ==> Registry()[i] == Replace(reg, self, self.View())[i];
    }

    /** The `forEach` of `offer`: the last socket that has an id equal to `"" + to`. */
    method FindLastWithId(to: Scalar) returns (k: Option<nat>)
      ensures k == LastWithId(Registry(), to)
    {
      ghost var reg := Registry();
      k := None;
      var i := 0;
      while i < |clients|
        invariant 0 <= i <= |clients|
        invariant k == LastWithId(reg[..i], to)
      {
        assert reg[..i + 1] == reg[..i] + [reg[i]];
        LastWithIdSnoc(reg[..i], reg[i], to);
        if clients[i].id.Some? && clients[i].id.value == Coerce(to) {
          k := Some(i);
        }
        i := i + 1;
      }
      assert reg[..i] == reg;
    }

    /** The `forEach` of `bye`: the last session with id `sid`. */
    method FindSession(sid: string) returns (j: Option<nat>)
      ensures j == LastSession(sessions, sid)
    {
      j := None;
      var i := 0;
      while i < |sessions|
        invariant 0 <= i <= |sessions|
        invariant j == LastSession(sessions[..i], sid)
      {
        assert sessions[..i + 1] == sessions[..i] + [sessions[i]];
        LastSessionSnoc(sessions[..i], sessions[i], sid);
        if sessions[i].id == sid {
          j := Some(i);
        }
        i := i + 1;
      }
      assert sessions[..i] == sessions;
    }

    /** The callee of an `offer` is sent the offer; then both ends are tagged
        with the session id. */
    method Notify(peer: Socket, self: Socket, sid: string, media: Blob, description: Blob)
      requires peer.id.Some?
      modifies peer, self, this`outbox
      ensures outbox == old(outbox) + [Delivery(peer, OfferNotice(old(peer.id.value), old(self.id), media, sid, description))]
      ensures Registry() == Tag(old(Registry()), peer, self, sid)
      ensures sessions == old(sessions)
      ensures self.id == old(self.id) && peer.id == old(peer.id)
      ensures self.View() == old(self.View()).(sessionId := Some(sid))
    {
      ghost var reg := Registry();
      Send(peer, OfferNotice(peer.id.value, self.id, media, sid, description));
      peer.sessionId := Some(sid);
      self.sessionId := Some(sid);
      assert forall i :: 0 <= i < |clients| ==> Registry()[i] == Tag(reg, peer, self, sid)[i];
    }

    method Offer(self: Socket, to: Scalar, sid: string, media: Blob, description: Blob)
      modifies self, clients, this`sessions, this`outbox
      ensures State() == OnOffer(old(State()), self, old(self.View()), to, sid, media, description).next
      ensures outbox == old(outbox) + OnOffer(old(State()), self, old(self.View()), to, sid, media, description).sent
      ensures self.View() == if LastWithId(old(Registry()), to).Some? then old(self.View()).(sessionId := Some(sid)) else old(self.View())
    {
      var k := FindLastWithId(to);
      if k.Some? {
        OfferTo(self, k.value, to, sid, media, description);
      }
    }

    /** `offer` when the callee is registered: it is the last socket with that
        id, at position `k`. */
    method OfferTo(self: Socket, k: nat, to: Scalar, sid: string, media: Blob, description: Blob)
      requires LastWithId(Registry(), to) == Some(k)
      modifies self, clients, this`sessions, this`outbox
      ensures State() == OnOffer(old(State()), self, old(self.View()), to, sid, media, description).next
      ensures outbox == old(outbox) + OnOffer(old(State()), self, old(self.View()), to, sid, media, description).sent
      ensures self.View() == old(self.View()).(sessionId := Some(sid))
    {
      ghost var st, me := State(), self.View();
      OfferFound(st, self, me, to, sid, media, description, k);
      var peer := clients[k];
      assert st.reg[k] == Entry(peer, peer.View());
      ghost var tagged := Tag(st.reg, peer, self, sid);
      Notify(peer, self, sid, media, description);
      assert Registry() == tagged && peerNo == st.peerNo;
      Record(Session(sid, self.id, peer.id.value));
      assert State() == LegacySpec.Legacy(tagged, st.sessions + [Session(sid, me.id, st.reg[k].attrs.id.value)], st.peerNo);
    }

    /** `sessions.push(s)`. */
    method Record(s: Session)
      modifies this`sessions
      ensures sessions == old(sessions) + [s]
      ensures Registry() == old(Registry())
    {
      sessions := sessions + [s];
    }

    /** `msg` written to every socket with `id === to` and `session_id === sid`. */
    method SendDirected(to: string, sid: string, msg: Outbound)
      modifies this`outbox
      ensures outbox == old(outbox) + Directed(old(Registry()), to, sid, msg)
      ensures Registry() == old(Registry())
    {
      var reg := Registry();
      ghost var base := outbox;
      var i := 0;
      while i < |reg|
        invariant 0 <= i <= |reg|
        invariant outbox == base + Broadcast(Keep(reg[..i], Addressed(to, sid)), msg)
        invariant Registry() == reg
      {
        FilteredBroadcastStep(reg, i, Addressed(to, sid), msg);
        ghost var sent := Broadcast(Keep(reg[..i], Addressed(to, sid)), msg);
        if reg[i].attrs.id == Some(to) && reg[i].attrs.sessionId == Some(sid) {
          Send(reg[i].conn, msg);
          AppendAssoc(base, sent, [Delivery(reg[i].conn, msg)]);
        }
        i := i + 1;
      }
      assert reg[..i] == reg;
    }

    /** `answer`: `reject` starts false and is set when `accept` is not. */
    method Answer(self: Socket, to: Scalar, sid: string, accept: bool, description: Blob)
      modifies this`outbox
      ensures outbox == old(outbox) + OnAnswer(old(State()), old(self.View()), to, sid, accept, description).sent
      ensures Registry() == old(Registry())
    {
      var reject := false;
      if !accept {
        reject := true;
      }
      SendDirected(Coerce(to), sid, AnswerNotice(reject, self.id, to, description));
    }

    method Candidate(self: Socket, to: Scalar, sid: string, candidate: Blob)
      modifies this`outbox
      ensures outbox == old(outbox) + OnCandidate(old(State()), old(self.View()), to, sid, candidate).sent
      ensures Registry() == old(Registry())
    {
      SendDirected(Coerce(to), sid, CandidateNotice(self.id, to, candidate));
    }

    /** The `bye` forwarded to every socket tagged with `sid`. */
    method SendByes(sess: Session, sid: string, from: Blob)
      modifies this`outbox
      ensures outbox == old(outbox) + ByeNotices(old(Registry()), sess, sid, from)
      ensures Registry() == old(Registry())
    {
      var reg := Registry();
      ghost var base := outbox;
      var i := 0;
      while i < |reg|
        invariant 0 <= i <= |reg|
        invariant outbox == base + ByeNotices(reg[..i], sess, sid, from)
        invariant Registry() == reg
      {
        var e := reg[i];
        assert reg[..i + 1] == reg[..i] + [e];
        ByeNoticesSnoc(reg[..i], e, sess, sid, from);
        ghost var sent := ByeNotices(reg[..i], sess, sid, from);
        if e.attrs.sessionId == Some(sid) {
          var d := Delivery(e.conn, ByeNotice(sid, from, if e.attrs.id == sess.from then Some(sess.to) else sess.from));
          Send(d.to, d.msg);
          AppendAssoc(base, sent, [d]);
        }
        i := i + 1;
      }
      assert reg[..i] == reg;
    }

    method Bye(self: Socket, sid: string, from: Blob)
      modifies this`outbox
      ensures outbox == old(outbox) + OnBye(old(State()), self, sid, from).sent
      ensures Registry() == old(Registry())
    {
      var j := FindSession(sid);
      if j.None? {
        Send(self, ErrorNotice("Invalid session " + sid));
      } else {
        SendByes(sessions[j.value], sid, from);
      }
    }

    method KeepAlive(self: Socket)
      modifies this`outbox
      ensures outbox == old(outbox) + [Delivery(self, KeepAliveEcho)]
      ensures Registry() == old(Registry())
    {
      Send(self, KeepAliveEcho);
    }

    /** The message switch of the `message` listener. */
    method Dispatch(self: Socket, frame: Frame)
      modifies this`clients, this`sessions, this`peerNo, this`outbox, clients, self
      ensures State() == OnMessage(old(State()), self, old(self.View()), frame).next
      ensures outbox == old(outbox) + OnMessage(old(State()), self, old(self.View()), frame).sent
      ensures self.View() == SenderAfter(old(State()), old(self.View()), frame)
    {
      ghost var st, me := State(), self.View();
      if frame.Corrupt? {
        return;
      }
      match frame.msg
      case New(id, name, userAgent) =>
        assert OnMessage(st, self, me, frame) == OnNew(st, self, me, id, name, userAgent);
        New(self, id, name, userAgent);
      case Offer(to, sid, media, description) =>
        assert OnMessage(st, self, me, frame) == OnOffer(st, self, me, to, sid, media, description);
        Offer(self, to, sid, media, description);
      case Answer(to, sid, accept, description) =>
        assert OnMessage(st, self, me, frame) == OnAnswer(st, me, to, sid, accept, description);
        Answer(self, to, sid, accept, description);
      case Candidate(to, sid, candidate) =>
        assert OnMessage(st, self, me, frame) == OnCandidate(st, me, to, sid, candidate);
        Candidate(self, to, sid, candidate);
      case Bye(sid, from) =>
        assert OnMessage(st, self, me, frame) == OnBye(st, self, sid, from);
        Bye(self, sid, from);
      case KeepAlive =>
        KeepAliveEffect(st, self, me);
        KeepAlive(self);
      case Unhandled(_) =>
    }

    /** The `message` listener: one frame, handled to completion; the sockets
        stay distinct. */
    method Receive(self: Socket, frame: Frame)
      requires Valid()
      modifies this`clients, this`sessions, this`peerNo, this`outbox, clients, self
      ensures Valid()
      ensures State() == OnMessage(old(State()), self, old(self.View()), frame).next
      ensures outbox == old(outbox) + OnMessage(old(State()), self, old(self.View()), frame).sent
      ensures self.View() == SenderAfter(old(State()), old(self.View()), frame)
    {
      ConnsOfView(clients);
      MessageKeepsWellformed(State(), self, self.View(), frame);
      Dispatch(self, frame);
      ConnsOfView(clients);
    }
  }
}
