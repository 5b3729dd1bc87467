/** The signalling relay of src/Server.ts as a state machine on values: the
    registry of connections (in `Set` iteration order, each with its fields),
    the list of sessions, and for each event the next state together with the
    messages handed to `_send`, in the order they are sent. */
module RelaySpec {
  import opened Values
  import opened ClientRecord
  import opened Registry

  type ClientEntry = Entry<Client, Attrs>

  /** A call pairing `{id, from, to}`: the caller's and the callee's connection ids. */
  datatype Session = Session(id: string, from: string, to: string)

  /** The projection of a client sent in a `peers` message. */
  datatype PeerInfo = PeerInfo(id: string, userId: string, inCall: bool)

  /** Outbound messages, one constructor per `type` the relay sends; `addressee`
      is the `to` of the inbound message, forwarded as received. */
  datatype Outbound =
    | Peers(peers: seq<PeerInfo>)
    | PushNotice(to: string, fromUser: Blob)
    | OfferNotice(to: string, from: string, media: Blob, fromUser: Blob, sessionId: string, description: Blob)
    | AnswerNotice(from: string, addressee: Scalar, description: Blob)
    | CandidateNotice(from: string, addressee: Scalar, candidate: Blob)
    | ByeNotice(sessionId: string, from: Blob, to: string, callBack: Blob)
    | ErrorNotice(error: string)
    | Leave(id: string)
    | KeepAliveEcho

  type Send = Delivery<Client, Outbound>

  /** Decoded inbound messages, one constructor per `type` the router handles. */
  datatype Inbound =
    | New(id: Scalar, userId: string, inCall: bool)
    | Push(to: Scalar, fromUser: Blob)
    | Offer(to: Scalar, sessionId: string, media: Blob, fromUser: Blob, description: Blob)
    | Answer(to: Scalar, sessionId: string, description: Blob)
    | Candidate(to: Scalar, sessionId: string, candidate: Blob)
    | Bye(sessionId: string, from: Blob, callBack: Blob)
    | KeepAlive
    | Unhandled(kind: string)

  /** A received frame: decompressed and decoded, or failing to decompress. */
  datatype Frame = Decoded(msg: Inbound) | Corrupt

  datatype Relay = Relay(reg: seq<ClientEntry>, sessions: seq<Session>)

  /** The state after an event and what was sent while handling it. */
  datatype Outcome = Outcome(next: Relay, sent: seq<Send>)

  // ---------------------------------------------------------------------------
  // Presence broadcasts

  function Info(e: ClientEntry): PeerInfo {
    PeerInfo(e.attrs.id, e.attrs.userId, e.attrs.inCall)
  }

  /** The `peers` array built by walking the registry. */
  function Snapshot(reg: seq<ClientEntry>): (r: seq<PeerInfo>)
    ensures |r| == |reg| && forall i :: 0 <= i < |reg| ==> r[i] == Info(reg[i])
  {
    if reg == [] then [] else Snapshot(reg[..|reg| - 1]) + [Info(reg[|reg| - 1])]
  }

  lemma SnapshotSnoc(reg: seq<ClientEntry>, e: ClientEntry)
    ensures Snapshot(reg + [e]) == Snapshot(reg) + [Info(e)]
  {
    assert (reg + [e])[..|reg|] == reg;
  }

  /** One more client visited by the walk of `updatePeersWithInCallPeers`. */
  lemma SessionSnapshotStep(reg: seq<ClientEntry>, i: nat, s: string)
    requires i < |reg|
    ensures reg[i].attrs.sessionId == s ==>
      Snapshot(Keep(reg[..i + 1], InSession(s))) == Snapshot(Keep(reg[..i], InSession(s))) + [Info(reg[i])]
    ensures reg[i].attrs.sessionId != s ==>
      Snapshot(Keep(reg[..i + 1], InSession(s))) == Snapshot(Keep(reg[..i], InSession(s)))
  {
    var kept := Keep(reg[..i], InSession(s));
    assert reg[..i + 1] == reg[..i] + [reg[i]];
    KeepSnoc(reg[..i], reg[i], InSession(s));
    if reg[i].attrs.sessionId == s {
      assert Keep(reg[..i + 1], InSession(s)) == kept + [reg[i]];
      SnapshotSnoc(kept, reg[i]);
    } else {
      assert Keep(reg[..i + 1], InSession(s)) == kept;
    }
  }

  /** `updatePeers`: the snapshot of everybody, sent to everybody. */
  function PeersUpdate(reg: seq<ClientEntry>): seq<Send> {
    Broadcast(reg, Peers(Snapshot(reg)))
  }

  function InSession(s: string): ClientEntry -> bool {
    (e: ClientEntry) => e.attrs.sessionId == s
  }

  function OutsideSession(s: string): ClientEntry -> bool {
    (e: ClientEntry) => e.attrs.sessionId != s
  }

  /** `updatePeersWithInCallPeers(s)`: the snapshot of the clients tagged with `s`,
      sent to the clients not tagged with `s`. */
  function CallUpdate(reg: seq<ClientEntry>, s: string): seq<Send> {
    Broadcast(Keep(reg, OutsideSession(s)), Peers(Snapshot(Keep(reg, InSession(s)))))
  }

  // ---------------------------------------------------------------------------
  // Lookups

  /** `Array.from(clients).find(c => c.id == v)`: the first loosely matching client. */
  function FirstLoose(reg: seq<ClientEntry>, v: Scalar): (r: Option<nat>)
    ensures r.Some? ==> (r.value < |reg| && LooseEquals(reg[r.value].attrs.id, v)
      && forall k :: 0 <= k < r.value ==> !LooseEquals(reg[k].attrs.id, v))
    ensures r.None? ==> forall k :: 0 <= k < |reg| ==> !LooseEquals(reg[k].attrs.id, v)
  {
    FirstWithIdFrom(reg, Coerce(v), 0)
  }

  /** The search of `FirstLoose` from position `i` on, for the client whose id
      is `key`. */
  function FirstWithIdFrom(reg: seq<ClientEntry>, key: string, i: nat): (r: Option<nat>)
    requires i <= |reg|
    ensures r.Some? ==> (i <= r.value < |reg| && reg[r.value].attrs.id == key
      && forall k :: i <= k < r.value ==> reg[k].attrs.id != key)
    ensures r.None? ==> forall k :: i <= k < |reg| ==> reg[k].attrs.id != key
    decreases |reg| - i
  {
    if i == |reg| then None
    else if reg[i].attrs.id == key then Some(i)
    else FirstWithIdFrom(reg, key, i + 1)
  }

  /** A `forEach` that overwrites its variable on every client with `id === v`:
      the last strictly matching client. */
  function LastWithId(reg: seq<ClientEntry>, v: Scalar): (r: Option<nat>)
    ensures r.Some? ==> (r.value < |reg| && StrictEquals(reg[r.value].attrs.id, v)
      && forall k :: r.value < k < |reg| ==> !StrictEquals(reg[k].attrs.id, v))
    ensures r.None? ==> forall k :: 0 <= k < |reg| ==> !StrictEquals(reg[k].attrs.id, v)
  {
    if reg == [] then None
    else if StrictEquals(reg[|reg| - 1].attrs.id, v) then Some(|reg| - 1)
    else LastWithId(reg[..|reg| - 1], v)
  }

  /** The `forEach` over sessions in `bye`: the last session with that id. */
  function LastSession(sessions: seq<Session>, sid: string): (r: Option<nat>)
    ensures r.Some? ==> (r.value < |sessions| && sessions[r.value].id == sid
      && forall k :: r.value < k < |sessions| ==> sessions[k].id != sid)
    ensures r.None? ==> forall k :: 0 <= k < |sessions| ==> sessions[k].id != sid
  {
    if sessions == [] then None
    else if sessions[|sessions| - 1].id == sid then Some(|sessions| - 1)
    else LastSession(sessions[..|sessions| - 1], sid)
  }

  // ---------------------------------------------------------------------------
  // Registry updates

  /** `updateSetEntriesCallStatus(status, [a, b])`: when both ids resolve, the two
      clients are deleted, get `in_call = status`, and are added back at the end. */
  function SetCallStatus(reg: seq<ClientEntry>, status: bool, a: Scalar, b: Scalar): seq<ClientEntry> {
    match (FirstLoose(reg, a), FirstLoose(reg, b))
    case (Some(i), Some(j)) =>
      Reinsert(reg, Entry(reg[i].conn, reg[i].attrs.(inCall := status)), Entry(reg[j].conn, reg[j].attrs.(inCall := status)))
    case _ => reg
  }

  lemma SetCallStatusFound(reg: seq<ClientEntry>, status: bool, a: Scalar, b: Scalar, i: nat, j: nat)
    requires FirstLoose(reg, a) == Some(i) && FirstLoose(reg, b) == Some(j)
    ensures SetCallStatus(reg, status, a, b)
      == Keep(Keep(reg, Other(reg[i].conn)), Other(reg[j].conn)) + [Entry(reg[i].conn, reg[i].attrs.(inCall := status))]
         + (if reg[j].conn == reg[i].conn then [] else [Entry(reg[j].conn, reg[j].attrs.(inCall := status))])
  {
  }

  lemma SetCallStatusMissing(reg: seq<ClientEntry>, status: bool, a: Scalar, b: Scalar)
    requires FirstLoose(reg, a).None? || FirstLoose(reg, b).None?
    ensures SetCallStatus(reg, status, a, b) == reg
  {
  }

  /** The entries of `a` and `b` with their session id set to `sid`. */
  function Tag(reg: seq<ClientEntry>, a: Client, b: Client, sid: string): (r: seq<ClientEntry>)
    ensures |r| == |reg|
  {
    seq(|reg|, i requires 0 <= i < |reg| =>
      if reg[i].conn == a || reg[i].conn == b
      then Entry(reg[i].conn, reg[i].attrs.(sessionId := sid))
      else reg[i])
  }

  /** The entry of `c` with its fields replaced by `attrs`. */
  function Replace(reg: seq<ClientEntry>, c: Client, attrs: Attrs): (r: seq<ClientEntry>)
    ensures |r| == |reg|
  {
    seq(|reg|, i requires 0 <= i < |reg| => if reg[i].conn == c then Entry(c, attrs) else reg[i])
  }

  // ---------------------------------------------------------------------------
  // Directed messages

  function Addressed(to: string, sid: string): ClientEntry -> bool {
    (e: ClientEntry) => e.attrs.id == to && e.attrs.sessionId == sid
  }

  /** `answer` and `candidate`: `m` to every client with `id === to` and
      `session_id === sid`. */
  function Directed(reg: seq<ClientEntry>, to: string, sid: string, m: Outbound): seq<Send> {
    Broadcast(Keep(reg, Addressed(to, sid)), m)
  }

  /** The leg of `sess` that is not `id`. */
  function OtherLeg(sess: Session, id: string): string {
    if id == sess.from then sess.to else sess.from
  }

  /** The `bye` forwarded to every client tagged with `sid`, naming the other leg. */
  function ByeNotices(reg: seq<ClientEntry>, sess: Session, sid: string, from: Blob, callBack: Blob): seq<Send> {
    if reg == [] then []
    else
      var e := reg[|reg| - 1];
      ByeNotices(reg[..|reg| - 1], sess, sid, from, callBack)
        + (if e.attrs.sessionId == sid
           then [Delivery(e.conn, ByeNotice(sid, from, OtherLeg(sess, e.attrs.id), callBack))]
           else [])
  }

  lemma ByeNoticesSnoc(reg: seq<ClientEntry>, e: ClientEntry, sess: Session, sid: string, from: Blob, callBack: Blob)
    ensures ByeNotices(reg + [e], sess, sid, from, callBack)
      == ByeNotices(reg, sess, sid, from, callBack)
         + (if e.attrs.sessionId == sid
            then [Delivery(e.conn, ByeNotice(sid, from, OtherLeg(sess, e.attrs.id), callBack))]
            else [])
  {
    assert (reg + [e])[..|reg|] == reg;
  }

  lemma LastWithIdSnoc(reg: seq<ClientEntry>, e: ClientEntry, v: Scalar)
    ensures LastWithId(reg + [e], v)
      == if StrictEquals(e.attrs.id, v) then Some(|reg|) else LastWithId(reg, v)
  {
    assert (reg + [e])[..|reg|] == reg;
  }

  lemma LastSessionSnoc(sessions: seq<Session>, s: Session, sid: string)
    ensures LastSession(sessions + [s], sid)
      == if s.id == sid then Some(|sessions|) else LastSession(sessions, sid)
  {
    assert (sessions + [s])[..|sessions|] == sessions;
  }

  /** The sessions whose id is `sid` (the filter in `onClose`). */
  function SessionsWithId(sessions: seq<Session>, sid: string): (r: seq<Session>)
    ensures |r| <= |sessions|
  {
    if sessions == [] then []
    else
      var last := sessions[|sessions| - 1];
      SessionsWithId(sessions[..|sessions| - 1], sid) + (if last.id == sid then [last] else [])
  }

  function OtherUser(uid: string): ClientEntry -> bool {
    (e: ClientEntry) => e.attrs.userId != uid
  }

  // ---------------------------------------------------------------------------
  // Events. `self` is the connection the event concerns and `me` the value of
  // its fields when the event arrives.

  /** A connection is accepted: `clients.add(client_self)`. */
  function OnConnect(st: Relay, c: Client, attrs: Attrs): Outcome {
    Outcome(Relay(if c in Conns(st.reg) then st.reg else st.reg + [Entry(c, attrs)], st.sessions), [])
  }

  function OnNew(st: Relay, self: Client, me: Attrs, id: Scalar, userId: string, inCall: bool): Outcome {
    var reg := Replace(st.reg, self, me.(id := Coerce(id), userId := userId, inCall := inCall));
    Outcome(Relay(reg, st.sessions), PeersUpdate(reg))
  }

  function OnPush(st: Relay, to: Scalar, fromUser: Blob): Outcome {
    match LastWithId(st.reg, to)
    case None => Outcome(st, [])
    case Some(k) => Outcome(st, [Delivery(st.reg[k].conn, PushNotice(st.reg[k].attrs.id, fromUser))])
  }

  function OnOffer(st: Relay, self: Client, me: Attrs, to: Scalar, sid: string,
                   media: Blob, fromUser: Blob, description: Blob): Outcome
  {
    match LastWithId(st.reg, to)
    case None => Outcome(st, [])
    case Some(k) =>
      var peer := st.reg[k];
      var note := OfferNotice(peer.attrs.id, me.id, media, fromUser, sid, description);
      Outcome(Relay(Tag(st.reg, peer.conn, self, sid), st.sessions + [Session(sid, me.id, peer.attrs.id)]),
              [Delivery(peer.conn, note)])
  }

  function OnAnswer(st: Relay, me: Attrs, to: Scalar, sid: string, description: Blob): Outcome {
    var sent := Directed(st.reg, Coerce(to), sid, AnswerNotice(me.id, to, description));
    var reg := SetCallStatus(st.reg, true, Str(me.id), to);
    Outcome(Relay(reg, st.sessions), sent + CallUpdate(reg, sid))
  }

  function OnCandidate(st: Relay, me: Attrs, to: Scalar, sid: string, candidate: Blob): Outcome {
    Outcome(st, Directed(st.reg, Coerce(to), sid, CandidateNotice(me.id, to, candidate)))
  }

  function OnBye(st: Relay, self: Client, sid: string, from: Blob, callBack: Blob): Outcome {
    match LastSession(st.sessions, sid)
    case None => Outcome(st, [Delivery(self, ErrorNotice("Invalid session " + sid))])
    case Some(j) => CallEnded(st, st.sessions[j], sid, from, callBack)
  }

  /** `bye` once session `sess` is found: both legs leave the call, the
      session's clients get the `bye`, the others the session's list. */
  function CallEnded(st: Relay, sess: Session, sid: string, from: Blob, callBack: Blob): Outcome {
    var reg := SetCallStatus(st.reg, false, Str(sess.from), Str(sess.to));
    Outcome(Relay(reg, st.sessions), ByeNotices(reg, sess, sid, from, callBack) + CallUpdate(reg, sess.id))
  }

  lemma OfferFound(st: Relay, self: Client, me: Attrs, to: Scalar, sid: string,
                   media: Blob, fromUser: Blob, description: Blob, k: nat)
    requires LastWithId(st.reg, to) == Some(k)
    ensures var peer := st.reg[k];
      OnOffer(st, self, me, to, sid, media, fromUser, description)
        == Outcome(Relay(Tag(st.reg, peer.conn, self, sid), st.sessions + [Session(sid, me.id, peer.attrs.id)]),
                   [Delivery(peer.conn, OfferNotice(peer.attrs.id, me.id, media, fromUser, sid, description))])
  {
  }

  lemma ByeFound(st: Relay, self: Client, sid: string, from: Blob, callBack: Blob, j: nat)
    requires LastSession(st.sessions, sid) == Some(j)
    ensures OnBye(st, self, sid, from, callBack) == CallEnded(st, st.sessions[j], sid, from, callBack)
  {
  }


  /** The message switch; a frame that fails to decompress is dropped. */
  function OnMessage(st: Relay, self: Client, me: Attrs, frame: Frame): Outcome {
    match frame
    case Corrupt => Outcome(st, [])
    case Decoded(m) =>
      match m
      case New(id, userId, inCall) => OnNew(st, self, me, id, userId, inCall)
      case Push(to, fromUser) => OnPush(st, to, fromUser)
      case Offer(to, sid, media, fromUser, description) => OnOffer(st, self, me, to, sid, media, fromUser, description)
      case Answer(to, sid, description) => OnAnswer(st, me, to, sid, description)
      case Candidate(to, sid, candidate) => OnCandidate(st, me, to, sid, candidate)
      case Bye(sid, from, callBack) => OnBye(st, self, sid, from, callBack)
      case KeepAlive => Outcome(st, [Delivery(self, KeepAliveEcho)])
      case Unhandled(_) => Outcome(st, [])
  }

  /** The sender's own fields after the switch, for a sender that is not in the
      registry (one `forcedLogout` removed without closing it): `new` overwrites
      them and an `offer` that finds its callee tags the sender; nothing else
      touches them. A registered sender's fields are its entry in the registry. */
  function SenderAfter(st: Relay, me: Attrs, frame: Frame): Attrs {
    match frame
    case Corrupt => me
    case Decoded(m) =>
      match m
      case New(id, userId, inCall) => me.(id := Coerce(id), userId := userId, inCall := inCall)
      case Offer(to, sid, _, _, _) => if LastWithId(st.reg, to).Some? then me.(sessionId := sid) else me
      case _ => me
  }

  // How the switch routes each message kind.

  lemma DispatchNew(st: Relay, self: Client, me: Attrs, id: Scalar, userId: string, inCall: bool)
    ensures OnMessage(st, self, me, Decoded(New(id, userId, inCall))) == OnNew(st, self, me, id, userId, inCall)
    ensures SenderAfter(st, me, Decoded(New(id, userId, inCall))) == me.(id := Coerce(id), userId := userId, inCall := inCall)
  {
  }

  lemma DispatchPush(st: Relay, self: Client, me: Attrs, to: Scalar, fromUser: Blob)
    ensures OnMessage(st, self, me, Decoded(Push(to, fromUser))) == OnPush(st, to, fromUser)
    ensures SenderAfter(st, me, Decoded(Push(to, fromUser))) == me
  {
  }

  lemma DispatchOffer(st: Relay, self: Client, me: Attrs, to: Scalar, sid: string,
                      media: Blob, fromUser: Blob, description: Blob)
    ensures OnMessage(st, self, me, Decoded(Offer(to, sid, media, fromUser, description)))
      == OnOffer(st, self, me, to, sid, media, fromUser, description)
    ensures SenderAfter(st, me, Decoded(Offer(to, sid, media, fromUser, description)))
      == if LastWithId(st.reg, to).Some? then me.(sessionId := sid) else me
  {
  }

  lemma DispatchAnswer(st: Relay, self: Client, me: Attrs, to: Scalar, sid: string, description: Blob)
    ensures OnMessage(st, self, me, Decoded(Answer(to, sid, description))) == OnAnswer(st, me, to, sid, description)
    ensures SenderAfter(st, me, Decoded(Answer(to, sid, description))) == me
  {
  }

  lemma DispatchCandidate(st: Relay, self: Client, me: Attrs, to: Scalar, sid: string, candidate: Blob)
    ensures OnMessage(st, self, me, Decoded(Candidate(to, sid, candidate))) == OnCandidate(st, me, to, sid, candidate)
    ensures SenderAfter(st, me, Decoded(Candidate(to, sid, candidate))) == me
  {
  }

  lemma DispatchBye(st: Relay, self: Client, me: Attrs, sid: string, from: Blob, callBack: Blob)
    ensures OnMessage(st, self, me, Decoded(Bye(sid, from, callBack))) == OnBye(st, self, sid, from, callBack)
    ensures SenderAfter(st, me, Decoded(Bye(sid, from, callBack))) == me
  {
  }

  /** The `close` event: the connection is deleted, then `onClose` runs. */
  function OnClose(st: Relay, self: Client, me: Attrs): Outcome {
    var reg := Keep(st.reg, Other(self));
    var sessions := if me.sessionId != "" then SessionsWithId(st.sessions, me.sessionId) else st.sessions;
    Outcome(Relay(reg, sessions), Broadcast(Keep(reg, Other(self)), Leave(me.id)) + PeersUpdate(reg))
  }

  /** `forcedLogout(channel, user_id)`. */
  function ForcedLogout(st: Relay, channel: string, uid: string): Relay {
    if channel != "force_logout" then st else Relay(Keep(st.reg, OtherUser(uid)), st.sessions)
  }

  /** The `peerNo` getter. */
  function PeerCount(st: Relay): nat {
    |st.reg|
  }

  /** The `peers` getter: the user ids, comma-joined, in registry order. */
  function UserList(reg: seq<ClientEntry>): (r: string)
    ensures reg == [] ==> r == ""
  {
    Join(seq(|reg|, i requires 0 <= i < |reg| => reg[i].attrs.userId))
  }

  // ---------------------------------------------------------------------------
  // The `Set` invariant: no connection is registered twice

  predicate Wellformed(st: Relay) {
    Distinct(Conns(st.reg))
  }

  lemma ReplaceConns(reg: seq<ClientEntry>, c: Client, attrs: Attrs)
    ensures Conns(Replace(reg, c, attrs)) == Conns(reg)
  {
    assert forall i :: 0 <= i < |reg| ==> Conns(Replace(reg, c, attrs))[i] == Conns(reg)[i];
  }

  lemma TagConns(reg: seq<ClientEntry>, a: Client, b: Client, sid: string)
    ensures Conns(Tag(reg, a, b, sid)) == Conns(reg)
  {
    assert forall i :: 0 <= i < |reg| ==> Conns(Tag(reg, a, b, sid))[i] == Conns(reg)[i];
  }

  lemma SetCallStatusKeepsDistinct(reg: seq<ClientEntry>, status: bool, a: Scalar, b: Scalar)
    requires Distinct(Conns(reg))
    ensures Distinct(Conns(SetCallStatus(reg, status, a, b)))
  {
    match (FirstLoose(reg, a), FirstLoose(reg, b))
    case (Some(i), Some(j)) =>
      ReinsertDistinct(reg, Entry(reg[i].conn, reg[i].attrs.(inCall := status)),
        Entry(reg[j].conn, reg[j].attrs.(inCall := status)));
    case _ =>
  }

  lemma ConnectKeepsWellformed(st: Relay, c: Client, attrs: Attrs)
    requires Wellformed(st)
    ensures Wellformed(OnConnect(st, c, attrs).next)
  {
    if c !in Conns(st.reg) {
      ConnsAppend(st.reg, [Entry(c, attrs)]);
      DistinctSnoc(Conns(st.reg), c);
    }
  }

  /** No message handler registers a connection twice. */
  lemma MessageKeepsWellformed(st: Relay, self: Client, me: Attrs, frame: Frame)
    requires Wellformed(st)
    ensures Wellformed(OnMessage(st, self, me, frame).next)
  {
    match frame
    case Corrupt =>
    case Decoded(m) =>
      match m
      case New(id, userId, inCall) =>
        DispatchNew(st, self, me, id, userId, inCall);
        ReplaceConns(st.reg, self, me.(id := Coerce(id), userId := userId, inCall := inCall));
      case Offer(to, sid, media, fromUser, description) =>
        DispatchOffer(st, self, me, to, sid, media, fromUser, description);
        if k :| LastWithId(st.reg, to) == Some(k) {
          TagConns(st.reg, st.reg[k].conn, self, sid);
        }
      case Answer(to, sid, description) =>
        DispatchAnswer(st, self, me, to, sid, description);
        SetCallStatusKeepsDistinct(st.reg, true, Str(me.id), to);
      case Bye(sid, from, callBack) =>
        DispatchBye(st, self, me, sid, from, callBack);
        if j :| LastSession(st.sessions, sid) == Some(j) {
          var sess := st.sessions[j];
          SetCallStatusKeepsDistinct(st.reg, false, Str(sess.from), Str(sess.to));
        }
      case _ =>
  }

  lemma CloseKeepsWellformed(st: Relay, self: Client, me: Attrs)
    requires Wellformed(st)
    ensures Wellformed(OnClose(st, self, me).next)
  {
    KeepDistinct(st.reg, Other(self));
  }

  lemma ForcedLogoutKeepsWellformed(st: Relay, channel: string, uid: string)
    requires Wellformed(st)
    ensures Wellformed(ForcedLogout(st, channel, uid))
  {
    KeepDistinct(st.reg, OtherUser(uid));
  }

  // ---------------------------------------------------------------------------
  // What each handler does

  /** When both ids resolve, exactly the two clients found get `in_call = status`:
      their new entries are there, every entry of another client is kept as it
      was, and nothing else is. */
  lemma SetCallStatusMarksBoth(reg: seq<ClientEntry>, status: bool, a: Scalar, b: Scalar, i: nat, j: nat)
    requires Distinct(Conns(reg))
    requires FirstLoose(reg, a) == Some(i) && FirstLoose(reg, b) == Some(j)
    ensures Entry(reg[i].conn, reg[i].attrs.(inCall := status)) in SetCallStatus(reg, status, a, b)
    ensures Entry(reg[j].conn, reg[j].attrs.(inCall := status)) in SetCallStatus(reg, status, a, b)
    ensures forall e :: e in SetCallStatus(reg, status, a, b) <==>
      (e in reg && e.conn != reg[i].conn && e.conn != reg[j].conn)
      || e == Entry(reg[i].conn, reg[i].attrs.(inCall := status))
      || e == Entry(reg[j].conn, reg[j].attrs.(inCall := status))
  {
    var e1, e2 := Entry(reg[i].conn, reg[i].attrs.(inCall := status)), Entry(reg[j].conn, reg[j].attrs.(inCall := status));
    assert SetCallStatus(reg, status, a, b) == Reinsert(reg, e1, e2);
    DistinctUnique(reg, i);
    ReinsertEntries(reg, e1, e2);
  }

  /** ... and the same connections stay registered, whether or not the ids resolve. */
  lemma SetCallStatusKeepsClients(reg: seq<ClientEntry>, status: bool, a: Scalar, b: Scalar)
    ensures forall c :: c in Conns(SetCallStatus(reg, status, a, b)) <==> c in Conns(reg)
  {
    match (FirstLoose(reg, a), FirstLoose(reg, b))
    case (Some(i), Some(j)) =>
      var e1, e2 := Entry(reg[i].conn, reg[i].attrs.(inCall := status)), Entry(reg[j].conn, reg[j].attrs.(inCall := status));
      ReinsertConns(reg, e1, e2);
      assert Conns(reg)[i] == e1.conn && Conns(reg)[j] == e2.conn;
    case _ =>
  }

  /** `updatePeers` writes one `peers` message to every registered client and to
      nobody else, each listing every client's id, user id and call status. */
  lemma PeersUpdateReachesAll(reg: seq<ClientEntry>)
    requires Distinct(Conns(reg))
    ensures Recipients(PeersUpdate(reg)) == Conns(reg)
    ensures forall c :: c in Conns(reg) ==> multiset(PeersUpdate(reg))[Delivery(c, Peers(Snapshot(reg)))] == 1
    ensures forall d :: d in PeersUpdate(reg) ==> d.msg == Peers(Snapshot(reg))
    ensures |Snapshot(reg)| == |reg| && forall k :: 0 <= k < |reg| ==> Snapshot(reg)[k] == Info(reg[k])
  {
    var m := Peers(Snapshot(reg));
    BroadcastReaches(reg, m);
    forall c | c in Conns(reg) ensures multiset(PeersUpdate(reg))[Delivery(c, m)] == 1 {
      BroadcastCount(reg, m, c);
      DistinctOnce(Conns(reg), c);
    }
  }

  /** `m` written to the clients not tagged with `s` reaches a client exactly
      when it is not tagged with `s`. */
  lemma OutsideReach(reg: seq<ClientEntry>, s: string, m: Outbound)
    requires Distinct(Conns(reg))
    ensures forall k :: 0 <= k < |reg| ==>
      (reg[k].conn in Recipients(Broadcast(Keep(reg, OutsideSession(s)), m)) <==> reg[k].attrs.sessionId != s)
  {
    FilteredReach(reg, OutsideSession(s), m);
  }

  /** `updatePeersWithInCallPeers(s)` writes the list of the clients tagged with
      `s` (`KeepMembers` says which entries those are) to exactly the other
      clients, so the two groups split the registry. */
  lemma CallUpdateSplit(reg: seq<ClientEntry>, s: string)
    requires Distinct(Conns(reg))
    ensures forall k :: 0 <= k < |reg| ==> (reg[k].conn in Recipients(CallUpdate(reg, s)) <==> reg[k].attrs.sessionId != s)
  {
    OutsideReach(reg, s, Peers(Snapshot(Keep(reg, InSession(s)))));
  }

  /** Every message written is that list, and no client gets it twice. */
  lemma CallUpdateOnce(reg: seq<ClientEntry>, s: string)
    requires Distinct(Conns(reg))
    ensures forall d :: d in CallUpdate(reg, s) ==> d.msg == Peers(Snapshot(Keep(reg, InSession(s))))
    ensures Distinct(Recipients(CallUpdate(reg, s)))
  {
    FilteredRecipients(reg, OutsideSession(s), Peers(Snapshot(Keep(reg, InSession(s)))));
    FilteredOnce(reg, OutsideSession(s), Peers(Snapshot(Keep(reg, InSession(s)))));
  }

  /** `answer` and `candidate` reach a registered client exactly when its id is
      the string form of `to` and it is tagged with the session id; each once. */
  lemma DirectedReach(reg: seq<ClientEntry>, to: string, sid: string, m: Outbound)
    requires Distinct(Conns(reg))
    ensures forall k :: 0 <= k < |reg| ==>
      (reg[k].conn in Recipients(Directed(reg, to, sid, m)) <==> reg[k].attrs.id == to && reg[k].attrs.sessionId == sid)
    ensures Distinct(Recipients(Directed(reg, to, sid, m)))
    ensures forall d :: d in Directed(reg, to, sid, m) ==> d.msg == m
  {
    FilteredRecipients(reg, Addressed(to, sid), m);
    FilteredOnce(reg, Addressed(to, sid), m);
    FilteredReach(reg, Addressed(to, sid), m);
  }

  /** `candidate` changes nothing and reaches exactly the addressed clients. */
  lemma CandidateEffect(st: Relay, me: Attrs, to: Scalar, sid: string, candidate: Blob)
    requires Wellformed(st)
    ensures OnCandidate(st, me, to, sid, candidate).next == st
    ensures forall k :: 0 <= k < |st.reg| ==>
      ((Delivery(st.reg[k].conn, CandidateNotice(me.id, to, candidate)) in OnCandidate(st, me, to, sid, candidate).sent)
       <==> (st.reg[k].attrs.id == Coerce(to) && st.reg[k].attrs.sessionId == sid))
    ensures forall d :: d in OnCandidate(st, me, to, sid, candidate).sent ==> d.msg == CandidateNotice(me.id, to, candidate)
  {
    var m := CandidateNotice(me.id, to, candidate);
    var sent := Directed(st.reg, Coerce(to), sid, m);
    DirectedReach(st.reg, Coerce(to), sid, m);
    forall k | 0 <= k < |st.reg| ensures Delivery(st.reg[k].conn, m) in sent <==> st.reg[k].conn in Recipients(sent) {
      DeliveredIff(sent, st.reg[k].conn, m);
    }
  }

  lemma AnswerList(st: Relay, me: Attrs, to: Scalar, sid: string, description: Blob)
    requires Wellformed(st)
    ensures var o := OnAnswer(st, me, to, sid, description);
      forall d :: d in o.sent ==>
        d.msg == AnswerNotice(me.id, to, description) || d.msg == Peers(Snapshot(Keep(o.next.reg, InSession(sid))))
    ensures var o := OnAnswer(st, me, to, sid, description);
      forall k :: 0 <= k < |o.next.reg| ==>
        (Delivery(o.next.reg[k].conn, Peers(Snapshot(Keep(o.next.reg, InSession(sid))))) in o.sent
         <==> o.next.reg[k].attrs.sessionId != sid)
  {
    var m := AnswerNotice(me.id, to, description);
    var reg := SetCallStatus(st.reg, true, Str(me.id), to);
    DirectedReach(st.reg, Coerce(to), sid, m);
    SetCallStatusKeepsDistinct(st.reg, true, Str(me.id), to);
    TrailingKinds(Directed(st.reg, Coerce(to), sid, m), reg, OutsideSession(sid), Peers(Snapshot(Keep(reg, InSession(sid)))));
    TrailingReach(Directed(st.reg, Coerce(to), sid, m), reg, OutsideSession(sid), Peers(Snapshot(Keep(reg, InSession(sid)))));
  }

  /** `answer` reaches exactly the addressed clients, then marks the sender and
      `to` in a call; the session list is not touched. */
  lemma AnswerEffect(st: Relay, me: Attrs, to: Scalar, sid: string, description: Blob)
    requires Wellformed(st)
    ensures OnAnswer(st, me, to, sid, description).next == Relay(SetCallStatus(st.reg, true, Str(me.id), to), st.sessions)
    ensures forall k :: 0 <= k < |st.reg| ==>
      ((Delivery(st.reg[k].conn, AnswerNotice(me.id, to, description)) in OnAnswer(st, me, to, sid, description).sent)
       <==> (st.reg[k].attrs.id == Coerce(to) && st.reg[k].attrs.sessionId == sid))
    ensures var o := OnAnswer(st, me, to, sid, description);
      forall d :: d in o.sent ==>
        d.msg == AnswerNotice(me.id, to, description) || d.msg == Peers(Snapshot(Keep(o.next.reg, InSession(sid))))
    ensures var o := OnAnswer(st, me, to, sid, description);
      forall k :: 0 <= k < |o.next.reg| ==>
        (Delivery(o.next.reg[k].conn, Peers(Snapshot(Keep(o.next.reg, InSession(sid))))) in o.sent
         <==> o.next.reg[k].attrs.sessionId != sid)
  {
    AnswerList(st, me, to, sid, description);
    var m := AnswerNotice(me.id, to, description);
    var sent := Directed(st.reg, Coerce(to), sid, m);
    var reg := SetCallStatus(st.reg, true, Str(me.id), to);
    var update := CallUpdate(reg, sid);
    DirectedReach(st.reg, Coerce(to), sid, m);
    BroadcastReaches(Keep(reg, OutsideSession(sid)), Peers(Snapshot(Keep(reg, InSession(sid)))));
    forall k | 0 <= k < |st.reg| ensures Delivery(st.reg[k].conn, m) in sent + update <==> st.reg[k].conn in Recipients(sent) {
      DeliveredIff(sent, st.reg[k].conn, m);
      assert Delivery(st.reg[k].conn, m) !in update;
    }
  }

  /** `push` changes nothing; it writes one `push` to the last client whose id
      is `to`, or nothing when no client has that id. */
  lemma PushEffect(st: Relay, to: Scalar, fromUser: Blob, k: nat)
    ensures OnPush(st, to, fromUser).next == st
    ensures (forall i :: 0 <= i < |st.reg| ==> !StrictEquals(st.reg[i].attrs.id, to))
      ==> OnPush(st, to, fromUser).sent == []
    ensures k < |st.reg| && StrictEquals(st.reg[k].attrs.id, to)
      && (forall i :: k < i < |st.reg| ==> !StrictEquals(st.reg[i].attrs.id, to))
      ==> OnPush(st, to, fromUser).sent == [Delivery(st.reg[k].conn, PushNotice(to.text, fromUser))]
  {
  }

  /** `offer` to an id no client has changes nothing and sends nothing. */
  lemma OfferUnknown(st: Relay, self: Client, me: Attrs, to: Scalar, sid: string,
                     media: Blob, fromUser: Blob, description: Blob)
    requires forall i :: 0 <= i < |st.reg| ==> !StrictEquals(st.reg[i].attrs.id, to)
    ensures OnOffer(st, self, me, to, sid, media, fromUser, description) == Outcome(st, [])
  {
  }

  /** `offer` to the id of a client, `k` being the last with that id: one
      `offer` goes to that client only, the pairing {session id, caller id,
      callee id} is appended, and exactly the two legs get the session id. */
  lemma OfferKnown(st: Relay, self: Client, me: Attrs, to: Scalar, sid: string,
                   media: Blob, fromUser: Blob, description: Blob, k: nat)
    requires k < |st.reg| && StrictEquals(st.reg[k].attrs.id, to)
    requires forall i :: k < i < |st.reg| ==> !StrictEquals(st.reg[i].attrs.id, to)
    ensures var o := OnOffer(st, self, me, to, sid, media, fromUser, description);
      o.next.sessions == st.sessions + [Session(sid, me.id, to.text)]
      && o.sent == [Delivery(st.reg[k].conn, OfferNotice(to.text, me.id, media, fromUser, sid, description))]
    ensures var o := OnOffer(st, self, me, to, sid, media, fromUser, description);
      Conns(o.next.reg) == Conns(st.reg)
      && forall i :: 0 <= i < |st.reg| ==>
        o.next.reg[i] == (if st.reg[i].conn == st.reg[k].conn || st.reg[i].conn == self
                          then Entry(st.reg[i].conn, st.reg[i].attrs.(sessionId := sid))
                          else st.reg[i])
  {
    assert LastWithId(st.reg, to) == Some(k);
    TagConns(st.reg, st.reg[k].conn, self, sid);
  }

  /** `new` gives the sender's entry the announced id, user id and call status,
      touches no other entry and no session, and writes one `peers` message,
      listing every client, to every client. */
  lemma NewEffect(st: Relay, self: Client, me: Attrs, id: Scalar, userId: string, inCall: bool)
    requires Wellformed(st)
    ensures var o := OnNew(st, self, me, id, userId, inCall);
      o.next.sessions == st.sessions && Conns(o.next.reg) == Conns(st.reg)
      && forall i :: 0 <= i < |st.reg| ==>
        o.next.reg[i] == (if st.reg[i].conn == self
                          then Entry(self, me.(id := Coerce(id), userId := userId, inCall := inCall))
                          else st.reg[i])
    ensures var o := OnNew(st, self, me, id, userId, inCall);
      Recipients(o.sent) == Conns(st.reg)
      && forall d :: d in o.sent ==> d.msg == Peers(Snapshot(o.next.reg))
  {
    var reg := Replace(st.reg, self, me.(id := Coerce(id), userId := userId, inCall := inCall));
    ReplaceConns(st.reg, self, me.(id := Coerce(id), userId := userId, inCall := inCall));
    PeersUpdateReachesAll(reg);
  }

  /** `bye` for a session id nobody opened: one error to the sender, nothing else. */
  lemma ByeUnknown(st: Relay, self: Client, sid: string, from: Blob, callBack: Blob)
    requires forall j :: 0 <= j < |st.sessions| ==> st.sessions[j].id != sid
    ensures OnBye(st, self, sid, from, callBack) == Outcome(st, [Delivery(self, ErrorNotice("Invalid session " + sid))])
  {
  }

  /** `bye` for a known session, `j` being the last with that id: both legs are
      marked out of a call and the session stays recorded. */
  lemma ByeKnownState(st: Relay, self: Client, sid: string, from: Blob, callBack: Blob, j: nat)
    requires j < |st.sessions| && st.sessions[j].id == sid
    requires forall i :: j < i < |st.sessions| ==> st.sessions[i].id != sid
    ensures OnBye(st, self, sid, from, callBack).next
      == Relay(SetCallStatus(st.reg, false, Str(st.sessions[j].from), Str(st.sessions[j].to)), st.sessions)
  {
    assert LastSession(st.sessions, sid) == Some(j);
  }

  /** Every client tagged with `sid` gets a `bye` naming the other leg, and every
      `bye` goes to such a client. */
  lemma {:induction false} ByeNoticesReach(reg: seq<ClientEntry>, sess: Session, sid: string, from: Blob, callBack: Blob)
    ensures forall e :: e in reg && e.attrs.sessionId == sid ==>
      Delivery(e.conn, ByeNotice(sid, from, OtherLeg(sess, e.attrs.id), callBack)) in ByeNotices(reg, sess, sid, from, callBack)
    ensures forall d :: d in ByeNotices(reg, sess, sid, from, callBack) ==>
      exists e :: e in reg && e.attrs.sessionId == sid && d == Delivery(e.conn, ByeNotice(sid, from, OtherLeg(sess, e.attrs.id), callBack))
  {
    if reg != [] {
      var init, last := reg[..|reg| - 1], reg[|reg| - 1];
      ByeNoticesReach(init, sess, sid, from, callBack);
      assert reg == init + [last];
    }
  }

  /** After the `bye`s of a known session, the rest written is the session's
      list, to exactly the clients outside the session. */
  lemma ByeList(st: Relay, self: Client, sid: string, from: Blob, callBack: Blob, j: nat)
    requires Wellformed(st)
    requires j < |st.sessions| && st.sessions[j].id == sid
    requires forall i :: j < i < |st.sessions| ==> st.sessions[i].id != sid
    ensures var o := OnBye(st, self, sid, from, callBack);
      forall d :: d in o.sent ==> d.msg.ByeNotice? || d.msg == Peers(Snapshot(Keep(o.next.reg, InSession(sid))))
    ensures var o := OnBye(st, self, sid, from, callBack);
      forall k :: 0 <= k < |o.next.reg| ==>
        (Delivery(o.next.reg[k].conn, Peers(Snapshot(Keep(o.next.reg, InSession(sid))))) in o.sent
         <==> o.next.reg[k].attrs.sessionId != sid)
  {
    assert LastSession(st.sessions, sid) == Some(j);
    var sess := st.sessions[j];
    var reg := SetCallStatus(st.reg, false, Str(sess.from), Str(sess.to));
    var byes := ByeNotices(reg, sess, sid, from, callBack);
    ByeNoticesReach(reg, sess, sid, from, callBack);
    SetCallStatusKeepsDistinct(st.reg, false, Str(sess.from), Str(sess.to));
    TrailingKinds(byes, reg, OutsideSession(sid), Peers(Snapshot(Keep(reg, InSession(sid)))));
    TrailingReach(byes, reg, OutsideSession(sid), Peers(Snapshot(Keep(reg, InSession(sid)))));
  }

  /** `bye` for a known session writes a `bye` to exactly the clients tagged
      with the session id, each naming the other leg; all else written is the
      `peers` update. */
  lemma ByeKnownNotices(st: Relay, self: Client, sid: string, from: Blob, callBack: Blob, j: nat)
    requires j < |st.sessions| && st.sessions[j].id == sid
    requires forall i :: j < i < |st.sessions| ==> st.sessions[i].id != sid
    ensures var o := OnBye(st, self, sid, from, callBack);
      forall e :: e in o.next.reg && e.attrs.sessionId == sid ==>
        Delivery(e.conn, ByeNotice(sid, from, OtherLeg(st.sessions[j], e.attrs.id), callBack)) in o.sent
    ensures var o := OnBye(st, self, sid, from, callBack);
      forall d :: d in o.sent && d.msg.ByeNotice? ==>
        exists e :: e in o.next.reg && e.attrs.sessionId == sid
          && d == Delivery(e.conn, ByeNotice(sid, from, OtherLeg(st.sessions[j], e.attrs.id), callBack))
    ensures var o := OnBye(st, self, sid, from, callBack);
      Wellformed(st) ==>
        forall d :: d in o.sent ==> d.msg.ByeNotice? || d.msg == Peers(Snapshot(Keep(o.next.reg, InSession(sid))))
    ensures var o := OnBye(st, self, sid, from, callBack);
      Wellformed(st) ==>
        forall k :: 0 <= k < |o.next.reg| ==>
          (Delivery(o.next.reg[k].conn, Peers(Snapshot(Keep(o.next.reg, InSession(sid))))) in o.sent
           <==> o.next.reg[k].attrs.sessionId != sid)
  {
    if Wellformed(st) {
      ByeList(st, self, sid, from, callBack, j);
    }
    assert LastSession(st.sessions, sid) == Some(j);
    var sess := st.sessions[j];
    var reg := SetCallStatus(st.reg, false, Str(sess.from), Str(sess.to));
    ByeNoticesReach(reg, sess, sid, from, callBack);
    FilteredRecipients(reg, OutsideSession(sid), Peers(Snapshot(Keep(reg, InSession(sid)))));
  }

  /** The sessions kept by `onClose` are those with the closer's session id. */
  lemma {:induction false} SessionsWithIdMembers(sessions: seq<Session>, sid: string)
    ensures forall s :: s in SessionsWithId(sessions, sid) <==> s in sessions && s.id == sid
  {
    if sessions != [] {
      var init := sessions[..|sessions| - 1];
      SessionsWithIdMembers(init, sid);
      assert sessions == init + [sessions[|sessions| - 1]];
    }
  }

  /** Close removes the closer and keeps every other client, in order; with a
      session id it keeps just the sessions with that id, without one it keeps
      them all. */
  lemma CloseState(st: Relay, self: Client, me: Attrs)
    ensures var n := OnClose(st, self, me).next;
      (forall e :: e in n.reg <==> e in st.reg && e.conn != self) && IsSubsequence(n.reg, st.reg)
    ensures var n := OnClose(st, self, me).next;
      me.sessionId != "" ==> forall s :: s in n.sessions <==> s in st.sessions && s.id == me.sessionId
    ensures me.sessionId == "" ==> OnClose(st, self, me).next.sessions == st.sessions
  {
    KeepMembers(st.reg, Other(self));
    KeepIsSubsequence(st.reg, Other(self));
    SessionsWithIdMembers(st.sessions, me.sessionId);
  }

  /** Nothing written on close goes to the closer. */
  lemma CloseSkipsCloser(st: Relay, self: Client, me: Attrs)
    ensures forall d :: d in OnClose(st, self, me).sent ==> d.to != self
  {
    var reg := Keep(st.reg, Other(self));
    OtherExcludes(st.reg, self);
    OtherExcludes(reg, self);
    BroadcastAvoids(Keep(reg, Other(self)), Leave(me.id), self);
    BroadcastAvoids(reg, Peers(Snapshot(reg)), self);
  }

  /** Each client left after a close gets exactly one `leave` with the closer's id. */
  lemma CloseLeaveOnce(st: Relay, self: Client, me: Attrs)
    requires Wellformed(st)
    ensures var o := OnClose(st, self, me);
      forall e :: e in o.next.reg ==> multiset(o.sent)[Delivery(e.conn, Leave(me.id))] == 1
  {
    var reg := Keep(st.reg, Other(self));
    var left := Keep(reg, Other(self));
    var m := Leave(me.id);
    KeepDistinct(st.reg, Other(self));
    KeepDistinct(reg, Other(self));
    KeepMembers(st.reg, Other(self));
    KeepMembers(reg, Other(self));
    BroadcastReaches(reg, Peers(Snapshot(reg)));
    forall e | e in reg ensures multiset(Broadcast(left, m) + PeersUpdate(reg))[Delivery(e.conn, m)] == 1 {
      var n :| 0 <= n < |left| && left[n] == e;
      assert Conns(left)[n] == e.conn;
      BroadcastCount(left, m, e.conn);
      DistinctOnce(Conns(left), e.conn);
      assert Delivery(e.conn, m) !in PeersUpdate(reg);
    }
  }

  /** Apart from the `leave`s, close sends the `peers` list of the registry
      left behind: every other message is that list, it goes only to remaining
      clients, and each remaining client gets it exactly once. */
  lemma CloseList(st: Relay, self: Client, me: Attrs)
    requires Wellformed(st)
    ensures var o := OnClose(st, self, me);
      forall d :: d in o.sent ==> d.msg == Leave(me.id) || d.msg == Peers(Snapshot(o.next.reg))
    ensures var o := OnClose(st, self, me);
      forall d :: d in o.sent && d.msg.Peers? ==> d.to in Conns(o.next.reg)
    ensures var o := OnClose(st, self, me);
      forall e :: e in o.next.reg ==> multiset(o.sent)[Delivery(e.conn, Peers(Snapshot(o.next.reg)))] == 1
  {
    var reg := Keep(st.reg, Other(self));
    var leaves := Broadcast(Keep(reg, Other(self)), Leave(me.id));
    var m := Peers(Snapshot(reg));
    KeepDistinct(st.reg, Other(self));
    PeersUpdateReachesAll(reg);
    BroadcastReaches(Keep(reg, Other(self)), Leave(me.id));
    forall d | d in leaves + PeersUpdate(reg)
      ensures d.msg == Leave(me.id) || d.msg == m
      ensures d.msg.Peers? ==> d.to in Conns(reg)
    {
      if d in PeersUpdate(reg) {
        var n :| 0 <= n < |PeersUpdate(reg)| && PeersUpdate(reg)[n] == d;
        assert Recipients(PeersUpdate(reg))[n] == d.to;
      }
    }
    forall e | e in reg ensures multiset(leaves + PeersUpdate(reg))[Delivery(e.conn, m)] == 1 {
      var n :| 0 <= n < |reg| && reg[n] == e;
      assert Conns(reg)[n] == e.conn;
      assert Delivery(e.conn, m) !in leaves;
    }
  }

  /** `forcedLogout` on another channel changes nothing; on `force_logout` it
      removes every client of that user and keeps the others in order. */
  lemma ForcedLogoutEffect(st: Relay, channel: string, uid: string)
    ensures channel != "force_logout" ==> ForcedLogout(st, channel, uid) == st
    ensures channel == "force_logout" ==>
      var n := ForcedLogout(st, channel, uid);
      n.sessions == st.sessions && IsSubsequence(n.reg, st.reg)
      && forall e :: e in n.reg <==> e in st.reg && e.attrs.userId != uid
  {
    KeepMembers(st.reg, OtherUser(uid));
    KeepIsSubsequence(st.reg, OtherUser(uid));
  }

  /** The `peers` getter puts one comma between consecutive user ids, so a
      list of comma-free ids can be split back apart. */
  lemma UserListSeparators(reg: seq<ClientEntry>)
    requires |reg| >= 1
    requires forall i :: 0 <= i < |reg| ==> Commas(reg[i].attrs.userId) == 0
    ensures Commas(UserList(reg)) == |reg| - 1
    ensures var ids := Split(UserList(reg));
      |ids| == |reg| && forall i :: 0 <= i < |reg| ==> ids[i] == reg[i].attrs.userId
  {
    var ids := seq(|reg|, i requires 0 <= i < |reg| => reg[i].attrs.userId);
    JoinSeparators(ids);
    SplitJoin(ids);
  }
}
