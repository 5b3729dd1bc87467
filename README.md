# WebRTC signalling relay: a Dafny model

This project models the signalling relay of a WebRTC calling service. Clients
connect over WebSockets and register with `new`, which also announces them to
everyone through a `peers` list. They call each other with `offer`, `answer`
and `candidate`, hang up with `bye`, ring with `push` and ping with
`keepalive`. The relay keeps an insertion-ordered `Set` of the connected
clients, each with its id, user id, call status and session id. It also keeps
a list of sessions `{id, from, to}` and relays each message to the clients it
is addressed to.

Two revisions of the relay are modelled:

- the current `CallHandler` of `src/Server.ts`, with its `Client` record from
  `src/classes/client.ts`;
- the earlier `CallHandler` of `src/Server.js`. This one keeps a cached
  `peer_no`, removes only the first matching session on close, has a
  rejection flag on `answer`, has no `push`, and lists whatever properties a
  socket happens to have.

Each revision is modelled twice:

- A pure state machine (`RelaySpec`, `LegacySpec`). For every event (connect,
  message, close, forced logout) a function gives the next state and the
  sequence of `_send` calls made while handling it. Lemmas state what each
  handler does: who gets which message and how many times, which entries and
  sessions change, and that no connection is ever registered twice.
- An imperative `CallHandler` class (`Relay`, `Legacy`). It has the source's
  fields: the registry as a sequence of client objects, the session list and
  the cached count. Its methods loop over the registry the way the source's
  `forEach` calls do. A ghost `outbox` records every `_send`. Each
  handler's postcondition is that the new state and the appended messages are
  exactly what the state machine computes from the old state. So every lemma
  about the state machine is a statement about the class.

Supporting modules:

- `Values`: JavaScript values as they occur in messages. This covers strings
  or numbers, `"" + v` coercion, `===` and `==` against a string,
  `parseInt`, and `Array.join`.
- `Clock`: the uptime formatter `toHHMMSS` and an inverse parser.
- `Registry`: generic facts about an insertion-ordered set of connections,
  and about sending one message to each of them.

`Relay` and `Legacy` each define their own `ViewOf` (the registry read off
the heap) and the few lemmas about it (`ViewOfDelete`, `ViewOfAppend`,
`ConnsOfView`), and their own `Attach`/`Detach` methods. They read the fields
of different classes (`Client`, `Socket`), and a generic definition would have
to take the reading function as a parameter with its own `reads` clause; the
two short copies are kept instead. For the same reason `RelaySpec` and
`LegacySpec` each state the lookups and lemmas the two revisions share in
shape (`LastSession`, `Replace`, the close lemmas) over their own entry types.
What depends on neither class lives once in `Registry`.

## Model

| member | source | states |
|---|---|---|
| Values.DecimalRoundTrip | src/Server.ts:211 | the decimal string of a number (as made by `"" + id` for integers below 10^21) reads back as that number |
| Values.ParseIntRoundTrip | src/Server.js:17 | `parseInt(String(n), 10)` gives `n` back for every integer `n` |
| Values.JoinSeparators | src/Server.ts:157-160 | `join()` of comma-free parts holds exactly one comma fewer than there are parts |
| Values.Join | src/Server.ts:159 | joining no parts gives the empty string, and joining one part gives that part |
| Values.Split | src/Server.ts:157-160 | the inverse of the `join()` at these lines, written independently and used to state what the `peers` string holds: splitting at the commas gives one more piece than there are commas |
| Values.SplitJoin | src/Server.ts:157-160 | splitting the `join()` of comma-free parts at its commas gives back exactly those parts, in order |
| Clock.Decomposition | src/Server.ts:25-28 | hours·3600 + minutes·60 + seconds equals the input; minutes and seconds lie in 0..59; hours are non-negative for a non-negative input |
| Clock.Layout | src/Server.ts:29 | the string has colons at fixed places from the end; minutes and seconds below ten get a leading zero; hours below ten give an 8-character string starting with `0` |
| Clock.PadDigits | src/Server.ts:29 | a padded field is all digits, reads back as the field, and has two characters below 100 |
| Clock.RoundTrip | src/Server.ts:25-30 | for every non-negative number of seconds, parsing the formatted string gives that number back, so the format loses nothing |
| Clock.LegacyAgrees | src/Server.js:16-26 | the earlier formatter, which first runs the input through `parseInt`, prints the same string as the current one for every integer |
| ClientRecord.Client.constructor | src/classes/client.ts:1-9 | a new client's fields are the defaults overwritten by the fields supplied |
| ClientRecord.FreshClientDefaults | src/classes/client.ts:2-5 | with nothing supplied, a client has id `""`, user id `""`, is not in a call and has session id `""` |
| ClientRecord.AssignOverridesExactlySupplied | src/classes/client.ts:7-9 | each supplied field replaces the current one, and each absent field keeps it |
| ClientRecord.AssignIdempotent | src/classes/client.ts:8 | assigning the same partial record twice is the same as assigning it once |
| ClientRecord.Assign | src/classes/client.ts:8 | assigning an empty partial record changes nothing |
| Sockets.Socket.constructor | src/Server.js:75-90 | a fresh socket has none of the properties `id`, `name`, `user_agent`, `session_id` |
| Registry.DeleteMembers | src/Server.ts:195 | `Set.delete(c)` keeps exactly the other members |
| Registry.KeepMembers | src/Server.ts:373-376 | filtering keeps exactly the entries that pass the test |
| Registry.KeepIsSubsequence | src/Server.ts:373-376 | filtering keeps the survivors in their original order |
| Registry.ReinsertEntries | src/Server.ts:140-146 | deleting two clients and adding them back leaves the two new entries plus every entry of any other client, and nothing else |
| Registry.ReinsertConns | src/Server.ts:140-146 | deleting two clients and adding them back leaves the same set of connections |
| Registry.ReinsertDistinct | src/Server.ts:140-146 | deleting and re-adding two clients registers no connection twice |
| Registry.BroadcastReaches | src/Server.ts:94-97 | sending to every client writes to exactly the registered clients, in registry order, with the one message |
| Registry.BroadcastCount | src/Server.ts:94-97 | a client gets the broadcast as many times as it is registered |
| Registry.BroadcastAvoids | src/Server.ts:180-182 | a connection that is not registered gets nothing from a broadcast |
| Registry.FilteredReach | src/Server.ts:123-128 | a broadcast restricted by a test reaches a registered client exactly when that client passes the test |
| Registry.FilteredOnce | src/Server.ts:123-128 | a restricted broadcast over distinct clients reaches each client at most once |
| Registry.KeepDistinct | src/Server.ts:373-376 | filtering a registry without duplicates leaves one without duplicates |
| RelaySpec.UserList | src/Server.ts:157-160 | the `peers` getter of an empty registry is the empty string |
| RelaySpec.UserListSeparators | src/Server.ts:157-160 | the `peers` getter puts exactly one comma between consecutive user ids, and when no user id holds a comma, splitting the list gives back every client's user id in registry order |
| RelaySpec.SetCallStatusMarksBoth | src/Server.ts:131-147 | when both ids resolve, the two clients found get the new call status; every other client's entry is kept unchanged; nothing else is in the registry |
| RelaySpec.SetCallStatusKeepsClients | src/Server.ts:131-147 | whether or not the ids resolve, the same clients stay registered |
| RelaySpec.SetCallStatusKeepsDistinct | src/Server.ts:131-147 | marking a call registers no client twice |
| RelaySpec.PeersUpdateReachesAll | src/Server.ts:71-98 | `updatePeers` sends exactly one `peers` message to each client and to nobody else; it lists each client's id, user id and call status in registry order |
| RelaySpec.CallUpdateSplit | src/Server.ts:100-129 | `updatePeersWithInCallPeers(s)` reaches a client exactly when the client's session id is not `s` |
| RelaySpec.CallUpdateOnce | src/Server.ts:100-129 | every message it sends is the list of the clients in session `s`, and no client gets it twice |
| RelaySpec.OutsideReach | src/Server.ts:123-128 | a message sent to the clients outside session `s` reaches a client exactly when it is not tagged with `s` |
| RelaySpec.NewEffect | src/Server.ts:210-215 | `new` gives the sender's entry the announced id (as a string), user id and call status, and touches no other entry or session; it sends every client the `peers` list of the new registry |
| RelaySpec.PushEffect | src/Server.ts:216-234 | `push` changes nothing; it sends one `push` to the last client whose id is strictly equal to `to`, or nothing when there is none |
| RelaySpec.OfferUnknown | src/Server.ts:277-285 | `offer` to an id no client has changes nothing and sends nothing |
| RelaySpec.OfferKnown | src/Server.ts:277-310 | `offer` to the last client with id `to` sends that client one `offer`; exactly the two legs get the session id; the session `{id, caller, callee}` is appended |
| RelaySpec.AnswerEffect | src/Server.ts:311-335 | `answer` reaches a client exactly when its id is `"" + to` and it is in the session; sender and `to` are then marked in a call, and the sessions are untouched; everything else sent is the session's `peers` list, which reaches exactly the clients of the new registry not in the session |
| RelaySpec.AnswerList | src/Server.ts:330-334 | every message `answer` sends is the answer itself or the list of the clients in the session, and that list reaches a client of the new registry exactly when the client is not in the session |
| RelaySpec.CandidateEffect | src/Server.ts:336-355 | `candidate` changes nothing and reaches a client exactly when its id is `"" + to` and it is in the session |
| RelaySpec.DirectedReach | src/Server.ts:321-329 | an addressed message reaches a client exactly when the id and session match, each such client once, and carries only that message |
| RelaySpec.ByeUnknown | src/Server.ts:235-252 | `bye` for an unknown session id sends one error `Invalid session <id>` to the sender and changes nothing |
| RelaySpec.ByeKnownState | src/Server.ts:236-254 | `bye` for a known session (the last with that id) marks both of its legs out of a call and keeps the session recorded |
| RelaySpec.ByeNoticesReach | src/Server.ts:256-273 | every client tagged with the session id gets a `bye` naming the other leg, and every `bye` goes to such a client |
| RelaySpec.ByeKnownNotices | src/Server.ts:254-276 | `bye` for a known session sends a `bye` to exactly the clients of the updated registry that are in that session, each naming the other leg; everything else sent is the session's `peers` list, which reaches exactly the clients not in the session |
| RelaySpec.ByeList | src/Server.ts:254-276 | every message a `bye` for a known session sends is a `bye` or the list of the clients in the session, and that list reaches a client exactly when the client is not in the session |
| RelaySpec.SessionsWithIdMembers | src/Server.ts:167-170 | the session filter of `onClose` keeps exactly the sessions whose id is the closer's session id |
| RelaySpec.CloseState | src/Server.ts:162-185 | close removes the closer and keeps every other client in order; with a session id only the sessions with that id remain, and without one all of them do |
| RelaySpec.CloseSkipsCloser | src/Server.ts:174-184 | nothing sent on close goes to the closer |
| RelaySpec.CloseLeaveOnce | src/Server.ts:174-184 | every client left after a close gets exactly one `leave` carrying the closer's id |
| RelaySpec.CloseList | src/Server.ts:174-184 | apart from the `leave`s, everything close sends is the `peers` list of the registry left behind; it goes only to remaining clients, and each remaining client gets it exactly once |
| RelaySpec.ForcedLogoutEffect | src/Server.ts:370-377 | on another channel nothing changes; on `force_logout` every client of that user is removed, and the others are kept in order with the sessions untouched |
| RelaySpec.ConnectKeepsWellformed | src/Server.ts:192 | adding a connection to the set never registers it twice |
| RelaySpec.MessageKeepsWellformed | src/Server.ts:199-367 | no message handler registers a connection twice |
| RelaySpec.CloseKeepsWellformed | src/Server.ts:194-197 | closing never registers a connection twice |
| RelaySpec.ForcedLogoutKeepsWellformed | src/Server.ts:373-376 | a forced logout never registers a connection twice |
| Relay.ViewOfDelete | src/Server.ts:195 | deleting a client object from the set removes exactly its entry from the registry |
| Relay.ViewOfSurvivors | src/Server.ts:373-376 | the new set built from the filtered clients is the registry without that user's entries |
| Relay.CallHandler.constructor | src/Server.ts:32-41 | a new handler has no clients, no sessions and has sent nothing |
| Relay.CallHandler.Send | src/Server.ts:379-389 | `_send` appends one delivery and changes no client |
| Relay.CallHandler.Connect | src/Server.ts:192 | a connection joins the set, appended unless already present |
| Relay.CallHandler.CollectPeers | src/Server.ts:75-82 | the loop builds the `peers` list of every client in registry order |
| Relay.CallHandler.CollectSessionPeers | src/Server.ts:104-114 | the loop builds the list of the clients in session `s` |
| Relay.CallHandler.SendToAll | src/Server.ts:94-97 | the loop sends the message to every client in registry order |
| Relay.CallHandler.SendOutsideSession | src/Server.ts:122-128 | the loop sends to exactly the clients outside session `s`, in order |
| Relay.CallHandler.UpdatePeers | src/Server.ts:71-98 | `updatePeers` sends what the state machine's presence update says and changes no client |
| Relay.CallHandler.UpdatePeersWithInCallPeers | src/Server.ts:100-129 | `updatePeersWithInCallPeers` sends the session's list to the clients outside it and changes no client |
| Relay.CallHandler.FindLoose | src/Server.ts:133-136 | `find` with `==` returns the first client whose id loosely equals the value |
| Relay.CallHandler.Detach | src/Server.ts:140-141 | `delete` removes exactly that client from the set |
| Relay.CallHandler.Attach | src/Server.ts:192 | `add` appends a client that is not yet present and ignores one that is |
| Relay.CallHandler.SetInCall | src/Server.ts:143-144 | `in_call` is set on a client outside the set, and the registry is unchanged |
| Relay.CallHandler.Readd | src/Server.ts:146 | re-adding a client with its new call status appends its new entry |
| Relay.CallHandler.Reattach | src/Server.ts:143-146 | both clients get the status and are appended in order, once when they are the same client |
| Relay.CallHandler.MarkPair | src/Server.ts:140-146 | delete both, set both statuses, add both back: the two updated entries move to the end |
| Relay.CallHandler.UpdateSetEntriesCallStatus | src/Server.ts:131-147 | the registry becomes the state machine's `SetCallStatus` of the old one, whose properties `SetCallStatusMarksBoth` states |
| Relay.CallHandler.FindLastStrict | src/Server.ts:278-283 | the `forEach` search ends on the last client whose id is strictly equal to `to` |
| Relay.CallHandler.FindSession | src/Server.ts:236-241 | the search ends on the last session with the id |
| Relay.CallHandler.SendDirected | src/Server.ts:321-329 | the loop sends to exactly the clients with the id and session, in order |
| Relay.CallHandler.SendToOthers | src/Server.ts:179-182 | the loop sends to every client except the closer |
| Relay.CallHandler.SendByes | src/Server.ts:256-273 | the loop sends each client in the session a `bye` naming its other leg |
| Relay.CallHandler.Record | src/Server.ts:303-308 | `push` appends the session |
| Relay.CallHandler.Retain | src/Server.ts:167-170 | the sessions become those with the given id |
| Relay.CallHandler.Rename | src/Server.ts:211-213 | the sender's id, user id and call status are replaced in place, and its entry changes accordingly |
| Relay.CallHandler.TagPair | src/Server.ts:300-301 | both legs get the session id |
| Relay.CallHandler.Notify | src/Server.ts:287-301 | the callee gets one `offer` with the ids as they were, then both legs are tagged, the caller's own fields included |
| Relay.CallHandler.New | src/Server.ts:210-215 | `new` does what the state machine's `OnNew` says (see `RelaySpec.NewEffect`), and the sender's own fields get the announced id, user id and call status even when it is not registered |
| Relay.CallHandler.Push | src/Server.ts:216-234 | `push` sends what `OnPush` says and changes no client |
| Relay.CallHandler.Offer | src/Server.ts:277-310 | `offer` does what `OnOffer` says (see `RelaySpec.OfferKnown`, `RelaySpec.OfferUnknown`); the sender's own session id is set exactly when the callee is found |
| Relay.CallHandler.OfferTo | src/Server.ts:285-309 | `offer` once the callee is found does what `OnOffer` says and tags the sender |
| Relay.CallHandler.Answer | src/Server.ts:311-335 | `answer` does what `OnAnswer` says (see `RelaySpec.AnswerEffect`) |
| Relay.CallHandler.MarkCall | src/Server.ts:331-334 | both parties are marked in a call, then the session's list goes to the others |
| Relay.CallHandler.Candidate | src/Server.ts:336-355 | `candidate` sends what `OnCandidate` says and changes no client |
| Relay.CallHandler.Bye | src/Server.ts:235-276 | `bye` does what `OnBye` says (see `RelaySpec.ByeUnknown`, `RelaySpec.ByeKnownNotices`) |
| Relay.CallHandler.ByeKnown | src/Server.ts:254-276 | `bye` for a session found at `j` does what `OnBye` says |
| Relay.CallHandler.EndCall | src/Server.ts:254-275 | ending a found call marks both legs out of a call and sends the `bye`s and the session's list |
| Relay.CallHandler.AnnounceEnd | src/Server.ts:256-275 | the `bye`s, then the session's list to everyone outside it |
| Relay.CallHandler.KeepAlive | src/Server.ts:356-358 | `keepalive` sends one echo to the sender |
| Relay.CallHandler.Dispatch | src/Server.ts:200-365 | the switch on `type` does what `OnMessage` says for every frame, a corrupt one included; a sender no longer in the set (after a forced logout) ends with the fields `SenderAfter` gives: renamed by `new`, tagged by an `offer` that finds its callee, untouched otherwise |
| Relay.CallHandler.Receive | src/Server.ts:199-367 | a received frame is handled as `OnMessage` says, the set keeps no duplicates, and an unregistered sender's fields are as `SenderAfter` gives |
| Relay.CallHandler.Disconnect | src/Server.ts:162-197 | the close listener does what `OnClose` says (see `RelaySpec.CloseState`, `RelaySpec.CloseLeaveOnce`) |
| Relay.CallHandler.Close | src/Server.ts:194-197 | the close listener keeps the set free of duplicates |
| Relay.CallHandler.ForcedLogout | src/Server.ts:370-377 | `forcedLogout` does what `RelaySpec.ForcedLogout` says (see `RelaySpec.ForcedLogoutEffect`) |
| Relay.CallHandler.PeerNo | src/Server.ts:149-151 | `peerNo` is the number of registered clients |
| Relay.CallHandler.PeerList | src/Server.ts:157-160 | `peers` of no clients is empty; when no user id holds a comma, `peers` has one comma fewer than there are clients and splits back into each client's user id, in set order |
| LegacySpec.Snapshot | src/Server.js:75-90 | the `peers` array has one record per socket |
| LegacySpec.FirstSessionFrom | src/Server.js:130-136 | the loop stops at the first session with the id at or after `i`, or finds none |
| LegacySpec.RemoveFirstEffect | src/Server.js:129-137 | close removes nothing when no session has the id, otherwise the first such session; at most one is removed |
| LegacySpec.RemoveFirstKeepsOthers | src/Server.js:129-137 | every session with another id survives the removal |
| LegacySpec.UpdatePeersEffect | src/Server.js:70-103 | `updatePeers` caches the socket count and sends each socket exactly one `peers` message; each record copies the properties its socket has |
| LegacySpec.PeerNoIsCached | src/Server.js:105-107 | a new connection grows the registry but not the cached `peer_no` |
| LegacySpec.PeerNamesSeparators | src/Server.js:113-123 | `getPeers` puts exactly one comma between consecutive names, and when no name holds a comma, splitting the list gives back each socket's name (empty when absent) in order |
| LegacySpec.OfferNeedsId | src/Server.js:224-228 | `offer` only matches a socket that has an id equal to `"" + to` |
| LegacySpec.OfferUnknown | src/Server.js:221-230 | `offer` to an id no socket has changes nothing and sends nothing |
| LegacySpec.OfferKnown | src/Server.js:221-256 | `offer` to the last socket with that id sends it one `offer`; exactly the two legs get the session id; one session is appended; the count is untouched |
| LegacySpec.AnswerEffect | src/Server.js:257-282 | `answer` changes nothing; its `reject` flag is the negation of `accept`; it reaches exactly the addressed sockets in the session, each once |
| LegacySpec.CandidateEffect | src/Server.js:283-304 | `candidate` changes nothing and reaches exactly the addressed sockets in the session |
| LegacySpec.DirectedEffect | src/Server.js:272-280 | an addressed message reaches a socket exactly when the id and session match, each once |
| LegacySpec.ByeUnknown | src/Server.js:181-199 | `bye` for an unknown session id sends one error to the sender and changes nothing |
| LegacySpec.ByeNoticesReach | src/Server.js:201-218 | every socket tagged with the session id gets a `bye` naming the other leg, and every `bye` goes to such a socket |
| LegacySpec.ByeKnown | src/Server.js:181-220 | `bye` for a known session changes no socket and no session, and sends exactly those `bye`s |
| LegacySpec.KeepAliveEffect | src/Server.js:305-307 | `keepalive` sends one echo to the sender and nothing else |
| LegacySpec.CloseState | src/Server.js:125-162 | close removes the socket and keeps the others in order; it recounts `peer_no`; it removes the first session with the socket's session id, if there is one |
| LegacySpec.CloseLeaveOnce | src/Server.js:138-149 | every socket left after a close gets exactly one `leave` with the closer's id |
| LegacySpec.CloseSkipsCloser | src/Server.js:138-149 | nothing sent on close goes to the closer |
| LegacySpec.ConnectKeepsWellformed | src/Server.js:157 | adding a connection never registers it twice |
| LegacySpec.MessageKeepsWellformed | src/Server.js:164-311 | no message handler registers a socket twice |
| LegacySpec.CloseKeepsWellformed | src/Server.js:159-162 | closing never registers a socket twice |
| Legacy.ViewOfDelete | src/Server.js:160 | deleting a socket from the set removes exactly its entry from the registry |
| Legacy.CallHandler.constructor | src/Server.js:30-40 | a new handler has no sockets, no sessions, a `peer_no` of 0 and has sent nothing |
| Legacy.CallHandler.Send | src/Server.js:314-320 | `_send` appends one delivery and changes no socket |
| Legacy.CallHandler.Connect | src/Server.js:157 | a connection joins the set |
| Legacy.CallHandler.Attach | src/Server.js:157 | `add` appends a socket that is not yet present and ignores one that is |
| Legacy.CallHandler.Detach | src/Server.js:160 | `delete` removes exactly that socket's entry |
| Legacy.CallHandler.CollectPeers | src/Server.js:75-90 | the loop builds one record per socket, in order |
| Legacy.CallHandler.SendToAll | src/Server.js:99-102 | the loop sends the message to every socket in order |
| Legacy.CallHandler.CountPeers | src/Server.js:73-92 | after the loop the list is built and `peer_no` is the number of sockets |
| Legacy.CallHandler.UpdatePeers | src/Server.js:70-103 | `updatePeers` does what `LegacySpec.UpdatePeers` says (see `LegacySpec.UpdatePeersEffect`) |
| Legacy.CallHandler.GetPeerNo | src/Server.js:105-107 | `getPeerNo` returns the cached count |
| Legacy.CallHandler.GetPeers | src/Server.js:113-123 | the loop joins the sockets' names, with an absent name as the empty string (see `LegacySpec.PeerNamesSeparators`) |
| Legacy.CallHandler.RemoveFirstSession | src/Server.js:129-137 | the splice-and-stop loop is proved to compute `LegacySpec.RemoveFirst`: the first session with the id is spliced out, and nothing else |
| Legacy.CallHandler.SendToOthers | src/Server.js:143-147 | the loop sends to every socket except the closer |
| Legacy.CallHandler.Disconnect | src/Server.js:125-162 | the close listener does what `LegacySpec.OnClose` says (see `LegacySpec.CloseState`) |
| Legacy.CallHandler.Close | src/Server.js:159-162 | the close listener keeps the set free of duplicates |
| Legacy.CallHandler.New | src/Server.js:173-180 | `new` sets the socket's id, name and user agent, then does `updatePeers`; the sender's own properties are set even when it is not registered |
| Legacy.CallHandler.Rename | src/Server.js:175-177 | the socket's id, name and user agent are replaced in place |
| Legacy.CallHandler.FindLastWithId | src/Server.js:223-228 | the search ends on the last socket that has an id equal to `"" + to` |
| Legacy.CallHandler.FindSession | src/Server.js:183-188 | the search ends on the last session with the id |
| Legacy.CallHandler.Notify | src/Server.js:232-245 | the callee gets one `offer`, then both legs are tagged, the caller's own properties included |
| Legacy.CallHandler.Offer | src/Server.js:221-256 | `offer` does what `LegacySpec.OnOffer` says (see `LegacySpec.OfferKnown`); the sender's own session id is set exactly when the callee is found |
| Legacy.CallHandler.OfferTo | src/Server.js:230-253 | `offer` once the callee is found does what `OnOffer` says and tags the sender |
| Legacy.CallHandler.Record | src/Server.js:247-252 | `push` appends the session |
| Legacy.CallHandler.SendDirected | src/Server.js:272-280 | the loop sends to exactly the addressed sockets, in order |
| Legacy.CallHandler.Answer | src/Server.js:257-282 | `answer` sends what `OnAnswer` says, with `reject` set when `accept` is false |
| Legacy.CallHandler.Candidate | src/Server.js:283-304 | `candidate` sends what `OnCandidate` says |
| Legacy.CallHandler.SendByes | src/Server.js:201-218 | the loop sends each socket in the session a `bye` naming its other leg |
| Legacy.CallHandler.Bye | src/Server.js:181-220 | `bye` sends what `OnBye` says and changes no socket |
| Legacy.CallHandler.KeepAlive | src/Server.js:305-307 | `keepalive` sends one echo to the sender |
| Legacy.CallHandler.Dispatch | src/Server.js:164-310 | the switch on `type` does what `OnMessage` says for every frame, and the sender's own properties end as `LegacySpec.SenderAfter` gives: set by `new`, tagged by an `offer` that finds its callee, untouched otherwise |
| Legacy.CallHandler.Receive | src/Server.js:164-311 | a received frame is handled as `OnMessage` says, the set keeps no duplicates, and the sender's properties are as `SenderAfter` gives |

## Left out

- Transport and encoding are not part of this model:
  - `zlib` compression and `msgpack` encoding are left out, and a frame is
    taken to be already decoded. A frame that fails to decompress (or, in the
    earlier revision, to decode) is the `Corrupt` frame, which changes nothing.
  - `_send` is the appending of one delivery to the ghost `outbox`. Its
    asynchronous compression, socket write, and the failures that are only
    logged are left out.
- Handling is atomic: each connection, message and close is handled to the
  end before the next one. The interleaving of the asynchronous `unzip`
  callbacks is not modelled.
- Redis is left out: the `sadd`/`srem` of `LOGGED_IN_PEERS` writes to an
  external store that the relay never reads back, and the subscription that
  delivers `force_logout` is reduced to a call of `ForcedLogout`.
- JWT client verification, the HTTP servers, `init` and the `/debug` route
  are wiring and are left out.
- The `uptime` and `getUptime` getters read the wall clock through `moment`.
  The clock is left out, and the formatter takes the elapsed seconds as a
  parameter.
- Relay.CallHandler.Connect: the value taken to be registered is the client
  object's field values. At run time the set holds `ws` sockets, whose fields
  start out undefined, not at the defaults of `src/classes/client.ts`. The
  model therefore reads `""` (or `false`) from a client field never assigned:
  `id`, `user_id` and `in_call` until the client sends `new`, and
  `session_id` until an `offer` names the client as caller or callee (an
  announced client that was never in an offer still has no session id at run
  time). Where the source compares such an undefined field with `""`, the
  model's answer differs:
  - `push` and `offer` with `to` equal to `""` match a client without an id
    in the model; in the source `undefined === ""` is false.
  - `answer` and `candidate` with `"" + to` equal to `""` reach a client
    without an id, and with a session id of `""` reach a client without a
    session id; in the source both `===` tests are false.
  - `updateSetEntriesCallStatus` with an id of `""` finds a client without an
    id; in the source `undefined == ""` is false.
  - For a session id of `""`, `CallUpdate` and `ByeNotices` count a client
    without a session id as in the session; in the source `undefined == ""`
    is false.
  - `forcedLogout` with a user id of `""` removes the clients without a user
    id; in the source `undefined != ""` is true and they stay.
  - `onClose` of a client without a session id skips the session filter in
    both, since `!!undefined` and `!!""` are both false.

  Where the source sends such a field, the model sends `""` or `false`
  instead of leaving it undefined: the `peers` snapshots, the `data` of
  `leave`, the `from` of `offer`, `answer` and `candidate`, and the `from` of
  the session record an `offer` appends.
- Relay.CallHandler.ForcedLogout: the model runs it with `this` being the
  handler. The source passes the method unbound as an event listener, so at
  run time `this` is not the handler.
- Values.LooseEquals: `==` between a string and a number is approximated by
  comparing the string with the number's canonical decimal form. Whitespace,
  signs, leading zeros and exponents are not modelled, and numbers are
  integers. JavaScript prints an integer of magnitude 10^21 or more in
  exponent form, so `Values.Coerce` matches `"" + n` only below that bound.
  The empty string is one such case: `"" == 0` is true in JavaScript, since
  `Number("")` is 0, but the model makes it false, because the decimal form
  of 0 is `"0"`.
- Values.ParseInt: leading whitespace is not skipped, and input other than an
  optional sign followed by digits gives no number. This only matters for
  inputs that an integer's own decimal form never has.
- Message fields are taken to be present with the type the handler uses them
  at: session ids and user ids are strings, and `to` and `id` are a string or
  a number. A missing field (`undefined`) is not modelled.
- In the earlier revision, `new` is taken to carry `name` and `user_agent`,
  and the truthiness of `accept` is reduced to a boolean.
- RelaySpec.CloseState models `onClose`'s session filter as written: it
  keeps only the sessions whose id equals the closer's session id. The
  comment beside it suggests removing that session was meant.
