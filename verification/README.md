# MESIM mesh protocols, modelled and proved in Dafny

MESIM is a peer-to-peer mesh messenger for field devices. Devices shake hands over UDP, exchange
signed and encrypted messages cut into fragments, learn multi-hop routes from a flood of originator
packets, keep messages for absent peers in a queue, and store their keys in a file that a duress
passphrase wipes. This project models the state those parts keep and proves what holds in every
run of them.

Each part has the same shape. Functions over values say what one call does. A class with the source's
own fields carries the call as a method that updates them in place, proved equal to that function. A
state machine built from the same functions says what can happen in which order, and the theorems are
about all its runs. Checking everything: `dafny verify dfyconfig.toml`.

| part | files |
|---|---|
| routing (`mesh/router.py`) | `Router` one node; `RouteFold` sequences of updates; `OriginatorNet` any number of nodes over a network that loses, reorders and duplicates, and its invariant; `LoopFreedom`, `Flood`, `Coverage` what follows; `OriginatorWire` the packet |
| transport (`mesh/transport.py`) | `Packet` framing and MAC; `Fragments`, `Transport` send, receive, acknowledge, retry; `Reassembly` any interleaving of datagrams, `BufferLimit` what full buffers do; `RetryRuns` sender, network and receiver together, `Redelivery` when a message is delivered twice; `Handshake`, `KeyAgreement`, `ConnectOutcome` what connect's answer means, and `KeyHistory`, `KeyDisagreement` when keys can differ; `Bundle`, `SenderId` |
| queue (`mesh/store_forward.py`) | `RowTable` what its SQL statements do; `ForwardQueue` the queue and the flush loop; `QueueTable` what one pass does; `QueueRuns` whole runs |
| identity (`core/identity.py`) | `Identity` bundles and key blobs; `IdentityFile` save, load and duress over any run of loads |
| smaller parts | `RateLimiter` (`api/server.py`), `Nonce` (`core/crypto.py`) |
| shared | `Wrappers`, `Addresses`, `Finite`, `Bytes`, `Primitives` (the cryptographic library as functions with lengths and correctness; one lemma shows these assumptions can be met) |

## What the code does not do

Some properties one might expect are false of the code. They are stated where they can be seen:

- Only the last fragment of a message is ever retransmitted, because the in-flight entry is
  overwritten for each fragment; the loss of another is final: `RetryRuns.LostFragmentIsFatal`.
- Two nodes can end up with different keys. `KeyDisagreement.AgreementExactly` says for which histories
  of connects: when each of the two can be made to answer the other, or one can be given another key
  after the other has taken the first. Any two connects between them are enough
  (`KeyDisagreement.TwoConnectsCanDisagree`), one is not.
- A message can be delivered more than once, when its acknowledgements come too late: exactly if it
  has one fragment (`Redelivery.RedeliveryExactly`), and then three times and no more
  (`RetryRuns.DeliveryBound`).
- Messages that lose a fragment can stop all others: 64 of them fill the reassembly buffers, which are
  never given back (`BufferLimit.LostFragmentsBlockEveryone`).
- The router's ORIGINATOR packets carry an all-zero MAC, so dispatch drops them when they come from an
  address with a peer; `Transport.UnkeyedGoesOn` says exactly when.
- A file saved on a platform with argon2 cannot be loaded on one without; the other way round it can:
  `IdentityFile.LoadAfterSave`.
- A callsign of 32 characters and a newline passes create_identity but does not fit a bundle:
  `IdentityFile.CallsignFits`.
- A relay that does not know an originator's bundle signs the copy with its own key, so that copy no
  longer verifies: `LoopFreedom.CopiesAreFaithful` says exactly when copies do.
- A bundle whose texts do not fit their fields, or end in NUL, does not come back as it was sent
  (`Bundle.RoundTrip`); where it is read at all, its signature verifies as before
  (`Bundle.TransitKeepsVerification`).
- A duress passphrase equal to the real one never takes effect:
  `IdentityFile.EqualPassphrasesNeverTrigger`.

Where the source's comments and its code differ, the model follows the code. `connect` is documented
as a 3-step handshake and exchanges four messages. `route_to` is documented to return the lowest hop
count and returns the newest sequence number first. HANDSHAKE and HANDSHAKE_RESP
packets are 1433 bytes, over the MTU of 1400; the MTU result is about MESSAGE packets.

## Model

| member | source | states |
|---|---|---|
| `Router.MeshRouter.constructor` | mesh/router.py:145-162 | a router starts with counter 0, no routes, nothing seen, no bundles |
| `Router.MeshRouter.UpdateRoute` | mesh/router.py:201-231 | the table afterwards: the entry is stored unless the one present is newer, or equally new with no more hops |
| `Router.MeshRouter.GetRoute` | mesh/router.py:184-195 | the stored entry, or nothing once it is over 60 s old |
| `Router.MeshRouter.PurgeStale` | mesh/router.py:233-239 | exactly the entries older than the cutoff go, and their number is returned |
| `Router.MeshRouter.RegisterBundle` | mesh/router.py:241-243 | the peer's key is known afterwards, all other bundles are kept |
| `Router.MeshRouter.BroadcastOriginator` | mesh/router.py:253-275 | the counter rises by one and every session gets, in order, one copy of the claim with this number, max_hops and time, signed and at hop 0 |
| `Router.MeshRouter.SendAll` | mesh/router.py:357-360 | the send loop reaches every session in order, leaving out one address |
| `Router.MeshRouter.HandleOriginator` | mesh/router.py:277-360 | new table, new seen-table and all copies sent on, for every branch: wrong length, own packet, bad signature, seen before, unreadable sender id, out of hops, bundle known or not; what is accepted with hops left goes to every session but those at the sender's address, once each and one hop on |
| `Router.PurgeKeepsAnswers` | mesh/router.py:184-239 | a purge hides no route that a later lookup would have returned |
| `Router.FanOutReaches` | mesh/router.py:271-275 | a send loop reaches each address as often as it has sessions, except the one left out, and no others |
| `Router.FanOutInOrder` | mesh/router.py:271-275 | with none left out, it follows the order of the sessions |
| `Router.RelayReaches` | mesh/router.py:333-360 | the number of copies each address gets from the handler, in every case |
| `Router.RelayedExactly` | mesh/router.py:333-360 | a session that is not at the sender's address gets a copy of what was accepted, one hop on, if and only if hops were left |
| `Router.HandledOnce` | mesh/router.py:313-321 | what the handler accepted it refuses from then on, even where it raised on the sender id, and everything older too |
| `RouteFold.FoldKeepsFirstBest` | mesh/router.py:201-231 | any sequence of updates leaves for each originator its earliest entry of greatest sequence number and then least hop count |
| `RouteFold.FoldIgnoresOrder` | mesh/router.py:201-231 | the sequence number and hop count kept are the same for every permutation of the updates |
| `RouteFold.LookupFindsFirstBest` | mesh/router.py:184-231 | after any updates a lookup returns that entry until 60 s after its last sight and nothing after that, and nothing for originators never heard of |
| `RouteFold.PurgeDropsUnanswered` | mesh/router.py:184-239 | a purge deletes exactly what a lookup at that moment would not return |
| `OriginatorNet.StepKeepsInv` | mesh/router.py:253-360 | every broadcast, delivery, loss, duplication, purge, new session and new bundle keeps the network invariant that ties copies in flight and table entries to the nodes they came through |
| `OriginatorNet.ReachableInv` | mesh/router.py:253-360 | the invariant holds in every reachable network |
| `OriginatorNet.HandlerNeverSuperseded` | mesh/router.py:313-331 | a claim the handler accepts is never superseded, so neither early return of update_route is taken from it |
| `OriginatorNet.AcceptedTrail` | mesh/router.py:313-331 | a copy that is accepted extends a route of session links on which every node accepted the same claim |
| `OriginatorNet.DeliveryKeepsInv` | mesh/router.py:277-360 | a delivery keeps the invariant, whatever the handler does with the copy |
| `OriginatorNet.RelayedSignature` | mesh/router.py:338-347 | a relayed copy carries the originator's signature exactly if it did before and the relay knew the bundle |
| `LoopFreedom.NextHopAccepted` | mesh/router.py:313-331 | the node a route points to is the originator or accepted the same claim one hop earlier |
| `LoopFreedom.HopDescends` | mesh/router.py:313-331 | along each hop the sequence number rises, or stays while the hop count drops by one; a chain can end only at the originator or at a node that once accepted a claim |
| `LoopFreedom.WalkDescends` | mesh/router.py:313-331 | the same for any two nodes of a forwarding chain |
| `LoopFreedom.RoutesAreLoopFree` | mesh/router.py:277-360 | in every reachable state, following next hops never visits a node twice |
| `LoopFreedom.WalkGrows` | mesh/router.py:277-360 | a chain standing at a node with a route goes on to another node and stays within the number of nodes |
| `LoopFreedom.ForwardingTerminates` | mesh/router.py:277-360 | every chain ends, at the originator, at a node whose route is gone, or at its start |
| `LoopFreedom.AcceptancesArePaths` | mesh/router.py:313-331 | every acceptance is witnessed by a simple path from the originator of at most max_hops + 1 links |
| `LoopFreedom.HopCountIsSound` | mesh/router.py:324-335 | a stored hop count h is the length of a simple path of h session links, every node of which accepted that sequence number, and 1 <= h <= max_hops + 1 |
| `LoopFreedom.TablesAgree` | mesh/router.py:313-331 | a stored sequence number equals the last one seen, also after purges |
| `LoopFreedom.AcceptedIsStored` | mesh/router.py:313-331 | at any node of a reachable network whatever the handler accepts goes into the table, so the first copy to arrive fixes the route |
| `LoopFreedom.CopiesAreFaithful` | mesh/router.py:253-360 | every copy in flight carries a claim its originator issued, has been relayed at most max_hops times, and verifies exactly if every relay knew the bundle; a copy that does not verify is refused by nodes that know it |
| `Flood.DeliveryDrops` | mesh/router.py:313-360 | each delivery strictly lowers the number of copies in flight plus, over all nodes, sessions times pairs unseen |
| `Flood.LossDrops` | mesh/router.py:313-360 | so does each loss |
| `Flood.SameCosts` | mesh/router.py:233-243 | purging routes and registering bundles leaves that number as it is |
| `Flood.DuplicateAdds` | mesh/router.py:313-360 | a duplication by the network raises it by one |
| `Flood.FloodIsBounded` | mesh/router.py:313-360 | over any run without broadcasts and new sessions, the deliveries and losses are at most that number plus the duplications |
| `Flood.EveryFloodDiesOut` | mesh/router.py:313-360 | with fixed sessions and no new broadcast every flood ends, from any state, whatever is purged, registered, lost or duplicated meanwhile |
| `Flood.AcceptancesStay` | mesh/router.py:313-317 | an acceptance is never undone by any later step |
| `Flood.ForwardsAtMostOnce` | mesh/router.py:313-317 | a node that accepted a claim refuses every later copy of it and of older ones, for good |
| `Coverage.BroadcastReaches` | mesh/router.py:253-275 | a broadcast adds one copy for every session in their order, with the next claim of the node |
| `Coverage.DeliveryRelays` | mesh/router.py:333-360 | a delivery takes its copy away and adds, if it is accepted with hops left, one for every session but those at its sender's address |
| `Coverage.AcceptsExactly` | mesh/router.py:303-317 | in every reachable network a copy is accepted if and only if it is not the node's own, nothing as new was accepted there before, and where the originator is known every relay knew it too |
| `Coverage.NeighboursHear` | mesh/router.py:277-360 | in any run that loses nothing, once no copy is in flight, every session of a node that issued a claim or accepted it with hops left has heard of it, or knows the originator while a relay did not |
| `Coverage.FloodReachesAll` | mesh/router.py:277-360 | so with max_hops at least the number of nodes less two, and bundles known to all or none, the last broadcast ends up accepted by every node that sessions lead to, in whatever order copies arrive |
| `OriginatorWire.WireRoundTrip` | mesh/router.py:110-123 | exactly the 110-byte strings are read, each field from its place, and each is written back byte for byte |
| `OriginatorWire.SignedBytesDetermine` | mesh/router.py:79-86 | signed bytes of two packets agree exactly when all fields but the hop count agree |
| `OriginatorWire.RelayStep` | mesh/router.py:333-381 | a relay with the bundle sends the received packet with one more hop, or nothing when it is out of hops |
| `OriginatorWire.RelayedIsRepacked` | mesh/router.py:333-381 | after any number of relays the packet is the first one at that many hops, until max_hops |
| `OriginatorWire.RelayedStillVerifies` | mesh/router.py:89-123 | after any number of relays up to max_hops, and no more, the packet reads as the same claim, verifies under the originator's key, and differs in its hop byte alone |
| `Packet.BuiltPacketParses` | mesh/transport.py:237-284 | every packet built parses to the same type, sender and payload, and its MAC verifies under its key |
| `Packet.CodesAgree` | mesh/transport.py:95-113 | the codes of the ten packet types, which of them are the handshake's, and that no others are read |
| `Packet.MacIsHmac` | mesh/transport.py:228-253 | a packet verifies exactly if its last 16 bytes are the first 16 of the HMAC of all before them |
| `Packet.ParsesExactly` | mesh/transport.py:277-290 | what is read of any datagram and each reason to refuse one; a length field past the end takes in the MAC |
| `Packet.ReadIsWritten` | mesh/transport.py:256-290 | a datagram whose length field is right is written back byte for byte |
| `Packet.FragReadExactly` | mesh/transport.py:697-713 | exactly which payloads hold a fragment, and which one |
| `Packet.MessagePacketReads` | mesh/transport.py:446-462 | the receiver reads from a MESSAGE packet exactly the fragment put in: it parses, its MAC verifies, both sides use the same additional data, and it is at most 1336 bytes, within the MTU |
| `Fragments.HeadGrows` | mesh/transport.py:440-443 | the next chunk continues the text where the chunks before it end |
| `Fragments.ChunksJoin` | mesh/transport.py:727-730 | the chunks of a text, joined in index order, are the text |
| `Fragments.StoresExactly` | mesh/transport.py:715-731 | for any fragment: the message is joined if and only if every index is there and a buffer was, whatever the number stored; otherwise the fragment is kept, and other messages are untouched |
| `Fragments.OpensExactly` | mesh/transport.py:733-743 | a text is let through if and only if the 64 bytes before it verify as its signature |
| `Transport.SendableLimit` | mesh/transport.py:436-447 | a message can be sent exactly up to 318686 bytes |
| `Transport.MeshTransport.constructor` | mesh/transport.py:328-345 | a transport starts with no sessions, buffers or entries, and message id 1 |
| `Transport.MeshTransport.PackFragment` | mesh/transport.py:447-462 | the packet put together by hand is the one build_packet makes of the same payload |
| `Transport.MeshTransport.SendFragment` | mesh/transport.py:446-471 | one datagram goes out and the message's in-flight entry holds it |
| `Transport.MeshTransport.SendFragments` | mesh/transport.py:446-471 | the loop sends every fragment once, in order, and leaves an entry for the last one alone |
| `Transport.MeshTransport.Send` | mesh/transport.py:425-475 | all effects of send: no session, or too long, sends nothing and changes no entry; otherwise the whole message goes out under the next id |
| `Transport.MeshTransport.OpenFragment` | mesh/transport.py:697-713 | the fragment a payload carries, or nothing where the packet is dropped |
| `Transport.MeshTransport.StoreFragment` | mesh/transport.py:715-731 | new buffers and, when the last fragment is there, the joined text; a full buffer table refuses new messages and a missing index keeps the buffer |
| `Transport.MeshTransport.VerifyAssembled` | mesh/transport.py:733-743 | the text after the signature, if the signature verifies |
| `Transport.MeshTransport.Incoming` | mesh/transport.py:690-713 | the session of the address is found and its key opens the fragment |
| `Transport.MeshTransport.Receive` | mesh/transport.py:715-743 | buffers and delivered message after one fragment |
| `Transport.AckIsRead` | mesh/transport.py:745-763 | the sender reads from the receiver's ACK the id of the message, and the MAC verifies |
| `Transport.ForgedIsRefused` | mesh/transport.py:524-532 | a packet from a peer's address that does not end in that peer's MAC stores, delivers and acknowledges nothing, and only handshake types go on |
| `Transport.OnlyForgedIsRefused` | mesh/transport.py:524-532 | all other packets pass the check |
| `Transport.BuiltGoesOn` | mesh/transport.py:534-559 | every packet made with the session key goes where its type belongs |
| `Transport.UnkeyedGoesOn` | mesh/transport.py:524-559 | an ORIGINATOR packet without MAC goes on unless its address has a peer whose MAC of it is not zero |
| `Transport.PongIsIgnored` | mesh/transport.py:550-551 | the answer to a PING is authentic, and its receiver does nothing with it |
| `Transport.MeshTransport.HandleMessage` | mesh/transport.py:678-756 | what a MESSAGE payload stores, delivers and acknowledges; nothing is acknowledged that is not delivered |
| `Transport.MeshTransport.HandleAck` | mesh/transport.py:758-764 | exactly the acknowledged id leaves the table; short payloads change nothing |
| `Transport.MeshTransport.RetrySweep` | mesh/transport.py:774-794 | one sweep: each expired entry is sent again to its address with the next backoff or, after three attempts, removed and reported with its address; all others stay |
| `Transport.MeshTransport.Dispatch` | mesh/transport.py:515-559 | every branch: nothing happens unless the packet parses and, where the address has a peer, ends in the first 16 bytes of that session's HMAC; MESSAGE, ACK and PING are handled, PONG is ignored, all other types go on to their handlers |
| `Reassembly.DatagramIsFragment` | mesh/transport.py:515-756 | dispatching a genuine datagram comes to storing the sender's fragment |
| `Reassembly.BufferFills` | mesh/transport.py:723-730 | frag_total stored entries are exactly the indices 0 to frag_total - 1, with the sender's chunks |
| `Reassembly.FragmentDelivers` | mesh/transport.py:715-756 | a fragment delivers exactly when it is the last one missing and is not refused, and delivers the message sent |
| `Reassembly.EveryDeliveryWasSent` | mesh/transport.py:434-756 | after any run of genuine arrivals in any order, every delivery is the message sent by that peer under that id |
| `Reassembly.DeliveriesBounded` | mesh/transport.py:715-731 | a message is delivered no more often than any one of its fragments arrived |
| `Reassembly.CompleteArrivalDelivers` | mesh/transport.py:715-756 | a message whose every fragment arrived, none refused, was delivered |
| `Reassembly.SentDatagramIsPacketFor` | mesh/transport.py:446-471 | the arrivals of these runs are what send emits |
| `Reassembly.AckNamesItsMessage` | mesh/transport.py:701-763 | the ACK the receiver makes of any genuine datagram names, at its sender, the message it belongs to |
| `BufferLimit.BuffersBounded` | mesh/transport.py:717-720 | in every run there are at most 64 reassembly buffers |
| `BufferLimit.FullBuffersRefuse` | mesh/transport.py:715-731 | once every buffer waits for a lost fragment and none is left, nothing that arrives is delivered and no buffer is given back |
| `BufferLimit.LostFragmentsBlockEveryone` | mesh/transport.py:715-731 | 64 messages that each lose their second fragment are enough for that, whatever else arrives |
| `RetryRuns.StepKeeps` | mesh/transport.py:446-794 | sending, arrival, loss, sweep and acknowledgement keep the invariant of sender, network and receiver |
| `RetryRuns.DeliveryBound` | mesh/transport.py:446-794 | without duplication a message of two or more fragments is delivered at most once, a single-fragment message at most three times |
| `Redelivery.SingleFragmentDeliveredThreeTimes` | mesh/transport.py:715-794 | for every single-fragment message of the sender there is a run that delivers it three times, so the bound is met |
| `Redelivery.RedeliveryExactly` | mesh/transport.py:715-794 | a message can be delivered more than once if and only if it has one fragment |
| `RetryRuns.LostFragmentIsFatal` | mesh/transport.py:464-471 | a message that loses a fragment other than its last is never delivered |
| `RetryRuns.AttemptsCountTransmissions` | mesh/transport.py:464-794 | an entry's attempt is between 1 and 3 and counts the transmissions of the packet it holds, which is the last fragment, addressed to the receiver |
| `RetryRuns.FailuresAreLateAndSingle` | mesh/transport.py:781-794 | send_failed fires at most once per id, not before 3.5 s after the last fragment's first transmission |
| `RetryRuns.NoMessageForgotten` | mesh/transport.py:758-794 | a message no longer in flight was delivered or reported as failed |
| `RetryRuns.NeverReturns` | mesh/transport.py:425-794 | an id that left the table never returns |
| `RetryRuns.ThreeExpiriesExhaust` | mesh/transport.py:781-794 | an entry sees at most three expiries, and failure is reported exactly at the third |
| `RetryRuns.SweepSendsTheLast` | mesh/transport.py:781-794 | in every run a sweep acts on exactly the entries whose wait is over: it sends the last fragment byte for byte as it was first sent, to the same address, or after three transmissions reports that address |
| `RetryRuns.SweepIsItsEvents` | mesh/transport.py:781-794 | the network gains exactly the datagrams of the sweep's events, and the failures are exactly its reports |
| `RetryRuns.FirstWait` | mesh/transport.py:464-471 | the wait after the first transmission is 0.5 s |
| `RetryRuns.NextWait` | mesh/transport.py:781-794 | after the second it is 1 s, after the third 2 s; entries whose wait is not over stay as they are |
| `RetryRuns.SendIsAStep` | mesh/transport.py:446-471 | the sending step of these runs is what Send does over a session to the receiver: the same table, and one datagram for each fragment |
| `Handshake.Endpoint.constructor` | mesh/transport.py:328-345 | an endpoint starts with nothing pending and no sessions |
| `Handshake.Endpoint.StartConnect` | mesh/transport.py:384-393 | connect up to its first wait: a new pending object and one HANDSHAKE; for a bundle that does not verify it raises and nothing changes |
| `Handshake.Endpoint.ResumeConnect` | mesh/transport.py:402-411 | connect between its waits: the key is drawn, kept in the object connect created, and KEY_INIT goes out |
| `Handshake.Endpoint.EndConnect` | mesh/transport.py:413-421 | connect's end, by success or timeout, drops whatever is pending for the address |
| `Handshake.Endpoint.HandleHandshake` | mesh/transport.py:563-579 | the bundle is noted in the pending object of the address, made if there is none, and answered; a payload that is no valid bundle is dropped |
| `Handshake.Endpoint.HandleResp` | mesh/transport.py:581-596 | an answer replaces the bundle and wakes connect, if something is pending; a payload that is no valid bundle is dropped |
| `Handshake.Endpoint.HandleKeyInit` | mesh/transport.py:598-638 | the responder installs the decapsulated key under the pending bundle, acknowledges, and forgets the pending object; otherwise, and for a payload of another length, nothing |
| `Handshake.Endpoint.HandleKeyAck` | mesh/transport.py:640-674 | the initiator installs its key exactly if the payload holds an acknowledgement that opens under it and a bundle is there |
| `Handshake.RespWakesConnect` | mesh/transport.py:394-400 | an answer from the address wakes the connect that waits there, whatever bundle it carries |
| `Handshake.LastBundleCounts` | mesh/transport.py:563-638 | a KEY_INIT installs a session under the last bundle received from its address |
| `Handshake.AckEnablesFinish` | mesh/transport.py:413-421 | a KEY_ACK lets a waiting connect return True if and only if it opens under the key that connect drew |
| `Handshake.OverIsDeaf` | mesh/transport.py:413-421 | once a connect is over, late answers to it have no effect |
| `Handshake.KeyInitIsTakenOnce` | mesh/transport.py:598-638 | a KEY_INIT that installs a session uses up what was pending for the address, and nothing else |
| `KeyAgreement.StepKeeps` | mesh/transport.py:374-674 | every connect step, timeout and delivery keeps the invariant on packets, pending objects and installed keys |
| `KeyAgreement.AckTellsInstall` | mesh/transport.py:640-674 | an acknowledgement that opens means the peer has already installed that key under the initiator's bundle |
| `KeyAgreement.InitiatorImpliesResponder` | mesh/transport.py:563-674 | whenever an initiator has installed a key, the responder has installed it under the initiator's bundle |
| `KeyAgreement.InstallCause` | mesh/transport.py:374-674 | every installed key goes back to a connect between the two nodes |
| `KeyAgreement.OneConnectAgrees` | mesh/transport.py:374-674 | when only one connect ever involved two nodes, the keys at both ends are equal in every later state |
| `ConnectOutcome.EventMeansInstall` | mesh/transport.py:640-674 | in every run an acknowledgement event is set if and only if its node has installed the key of that pending object as initiator |
| `ConnectOutcome.TrueMeansBothInstalled` | mesh/transport.py:374-674 | connect returns True only when both ends have installed its key, each under the other's id, and the bundle was the one of the node called |
| `ConnectOutcome.ConnectCanSucceed` | mesh/transport.py:374-674 | whatever happened before, a connect called now can still return True, with its key at both ends |
| `KeyHistory.RunTimely` | mesh/transport.py:374-674 | in every run the order of calls, answers and KEY_INITs fits: an entry that still expects another id than its address's is the node's last call there, made after the other side had called |
| `KeyHistory.RedirectedInstall` | mesh/transport.py:598-638 | a KEY_INIT that meets an entry under another id meets a call redirected in this way |
| `KeyHistory.RunKeepsSole` | mesh/transport.py:563-674 | once a node has installed the key of the only call that can give it one for that peer, it holds it |
| `KeyHistory.HistoryAgrees` | mesh/transport.py:374-674 | unless the history of connects allows otherwise, two nodes that both hold a session hold the same key, in every run |
| `KeyDisagreement.BothAnswerDisagree` | mesh/transport.py:598-644 | when each node can be made to answer the other, some run of exactly these calls leaves them different keys |
| `KeyDisagreement.OverwritesDisagree` | mesh/transport.py:598-674 | so does some run when one can be given another key after the other has taken the first |
| `KeyDisagreement.AgreementExactly` | mesh/transport.py:374-674 | for any nodes and any history of connects: some run with exactly these calls leaves two nodes with different keys if and only if the history allows it |
| `KeyDisagreement.TwoConnectsCanDisagree` | mesh/transport.py:636-644 | any history with two connects between two nodes, crossing or repeated and among any others, has a run that leaves them different keys |
| `KeyDisagreement.OneConnectCannot` | mesh/transport.py:374-421 | a history with at most one connect that has to do with two nodes does not |
| `Bundle.WireParts` | mesh/transport.py:173-193 | where each field of a bundle lies in its wire form |
| `Bundle.Transit` | mesh/transport.py:173-225 | what the receiver reads from any bundle that can be packed, errors included |
| `Bundle.RoundTrip` | mesh/transport.py:173-225 | a bundle comes back unchanged exactly when both texts fit their fields without a trailing NUL and the signature has 64 bytes |
| `Bundle.WireFormIsUnique` | mesh/transport.py:196-225 | whatever is read is written back byte for byte, so no two wire forms are read alike |
| `Bundle.TransitKeepsVerification` | mesh/transport.py:173-225 | transit changes neither the signed bytes nor whether the signature verifies |
| `Bundle.OwnBundleArrives` | mesh/transport.py:389-392 | a node's own bundle reaches its peer unchanged and verifies |
| `SenderId.RepackKeepsId` | mesh/transport.py:163-170 | packing an id read from the wire gives the same 32 bytes exactly when it holds no hyphen |
| `SenderId.UuidComesBack` | mesh/transport.py:163-170 | a UUID sent as sender id and normalized by the queue is the same UUID, exactly when it was in lower case |
| `Identity.CanonicalParts` | core/identity.py:145-169 | signed bytes are 1317 long, and where each field lies in them |
| `Identity.CanonicalDetermines` | core/identity.py:145-169 | signed bytes of two bundles agree exactly when the bundles agree in every signed field, as far as the field widths keep it |
| `Identity.TrimmedIsSame` | core/identity.py:166-167 | the widths keep a bundle exactly when both texts fit and do not end in NUL |
| `Identity.TrimmedVerifies` | core/identity.py:372-386 | a signature holds for a bundle exactly if it holds for what the widths keep of it |
| `Identity.TamperedIsRefused` | core/identity.py:372-386 | a signature that verifies one text alone is refused with every bundle that differs in a signed field |
| `Identity.OwnBundleVerifies` | core/identity.py:344-386 | verification accepts every bundle that get_public_bundle makes, and it holds the identity's fields |
| `Identity.KeysComeBack` | core/identity.py:235-309 | secret keys survive serialization, and the whole key set does exactly when each public key belongs to its secret key |
| `Identity.BlobComesBack` | core/identity.py:252-309 | exactly the 2464-byte blobs are read, each key from its place, and each is written back byte for byte |
| `IdentityFile.Store.SaveIdentity` | core/identity.py:389-459 | the file written without a duress passphrase, with the key derivation parameters of the platform |
| `IdentityFile.Store.SaveWithDuress` | core/identity.py:389-459 | the file written with one; nothing is written when create_identity refuses the callsign |
| `IdentityFile.CallsignFits` | core/identity.py:317-330 | an accepted callsign is ASCII and fits its field, unless it is of full width and ends in a newline |
| `IdentityFile.CallsignExactly` | core/identity.py:317-330 | accepted are exactly 1 to 32 capital letters, digits, underscores and hyphens, and those followed by one newline |
| `IdentityFile.Store.LoadIdentity` | core/identity.py:462-553 | result and file after a load, for every error and both passphrases |
| `IdentityFile.LoadAfterSave` | core/identity.py:389-553 | a saved identity loads with its own passphrase only, on every platform that has argon2 if it was saved with it, and comes back exactly when its keys belong together |
| `IdentityFile.LoadAfterDuressSave` | core/identity.py:462-553 | where the file can be read at all: the real passphrase is tried first; the duress passphrase returns the decoy and leaves a file of the decoy alone; any other fails |
| `IdentityFile.LoadsExactly` | core/identity.py:462-553 | of all files there are, a load returns an identity from exactly those that hold it, first as the real one, else as the decoy; the file changes if and only if a decoy is returned |
| `IdentityFile.RefusesExactly` | core/identity.py:462-517 | exactly when each of the errors before and during decryption is raised |
| `IdentityFile.DecoyIsFresh` | core/identity.py:499-517 | the decoy returned has the keys that were made for it exactly when those belong together |
| `IdentityFile.DuressOverAnyRun` | core/identity.py:389-553 | over any sequence of loads: until the duress passphrase is first used the real one gives the real identity; from then on the duress passphrase always gives the same decoy, every other fails, and the file holds the decoy alone |
| `IdentityFile.EqualPassphrasesNeverTrigger` | core/identity.py:489-517 | a duress passphrase equal to the real one never changes the file or the answers |
| `ForwardQueue.NormalizeIsCanonical` | mesh/store_forward.py:85-98 | normalizing is idempotent, and two wire-form ids meet exactly when they differ in case only |
| `RowTable.FilterSelects` | mesh/store_forward.py:185-247 | what a condition selects from a table is exactly the rows that satisfy it, each at its place in the order |
| `RowTable.FilterSize` | mesh/store_forward.py:229-247 | a count is the number of places whose row satisfies the condition |
| `RowTable.FilterTwice` | mesh/store_forward.py:219-247 | selecting after deleting what a weaker condition leaves out selects the same |
| `RowTable.SortedSorts` | mesh/store_forward.py:189 | sorting any table yields the same rows, each as often, ordered by time and id |
| `RowTable.PendingSorts` | mesh/store_forward.py:185-191 | pending rows are the peer's live ones, each as often as in the table, ordered by time and id |
| `ForwardQueue.Queue.Enqueue` | mesh/store_forward.py:151-174 | one row with the next id is appended, or the full queue is refused and unchanged |
| `ForwardQueue.Queue.GetPending` | mesh/store_forward.py:176-203 | for any table: the peer's live rows and no others, each as often as in the table, ordered by time and id |
| `ForwardQueue.Queue.QueueSize` | mesh/store_forward.py:229-238 | the number of places that hold a live row of the peer |
| `ForwardQueue.Queue.TotalSize` | mesh/store_forward.py:240-247 | the number of places that hold a live row |
| `ForwardQueue.Queue.MarkSent` | mesh/store_forward.py:205-209 | a row stays exactly if it has another id, and those that stay keep their order |
| `ForwardQueue.Queue.IncrementAttempt` | mesh/store_forward.py:211-217 | place by place: rows of that id gain an attempt, all others are the same |
| `ForwardQueue.Queue.PurgeExpired` | mesh/store_forward.py:219-227 | a row stays exactly if it is live, those that stay keep their order, and the number of others is returned |
| `ForwardQueue.StoreForward.FlushPeer` | mesh/store_forward.py:338-368 | table, handed messages and count after a flush in which any of the sends may raise |
| `ForwardQueue.StoreForward.SendOrQueue` | mesh/store_forward.py:320-336 | a live session is used and the queue untouched; otherwise the message is queued or refused |
| `QueueTable.PendingIsLive` | mesh/store_forward.py:182-203 | pending messages are the peer's live rows, in the order of their ids |
| `QueueTable.FlushedExactly` | mesh/store_forward.py:359-368 | row by row, the flush loop deletes exactly the successes, adds one attempt to exactly the failures, and leaves all else |
| `QueueTable.HandedMembers` | mesh/store_forward.py:359-368 | handed messages are exactly the pending ones whose send returned |
| `QueueTable.HandedInOrder` | mesh/store_forward.py:359-368 | they are handed on oldest first |
| `QueueTable.FlushSplits` | mesh/store_forward.py:359-368 | a flush moves each id from the table to the transport or keeps it, and loses none |
| `QueueTable.PurgeSplits` | mesh/store_forward.py:219-227 | a purge deletes an id or keeps it, and loses none |
| `QueueRuns.StepKeeps` | mesh/store_forward.py:151-368 | enqueue, flush and purge keep the queue's invariant |
| `QueueRuns.EachMessageOnce` | mesh/store_forward.py:151-368 | in every run each enqueued message is exactly one of still stored, handed on once, or purged after its TTL, and unchanged but for its attempts |
| `QueueRuns.EnqueuedExactly` | mesh/store_forward.py:159-174 | a message is added, to live for 86400 s, if and only if its peer has fewer than 256 live entries |
| `QueueRuns.PendingForADay` | mesh/store_forward.py:159-203 | a stored message is pending for its peer exactly until 86400 s after it was enqueued |
| `QueueRuns.LiveEntriesBounded` | mesh/store_forward.py:159-174 | every peer has at most 256 live entries, now and at any later time |
| `QueueRuns.LiveIsSuffix` | mesh/store_forward.py:166-203 | live entries are those past some point of the table, in id order |
| `QueueRuns.FlushIsExact` | mesh/store_forward.py:338-368 | in every reachable state a flush goes over the live messages in order, hands on a subsequence, and leaves other peers' and expired rows alone |
| `QueueRuns.PurgeIsInvisible` | mesh/store_forward.py:219-247 | a purge changes no pending list, queue size or total size asked for at any later time |
| `RateLimiter.Limiter.constructor` | api/server.py:101-107 | a limiter starts without buckets |
| `RateLimiter.Limiter.Request` | api/server.py:107-121 | decision and buckets after one request; other clients' buckets are untouched |
| `RateLimiter.BucketIsHistory` | api/server.py:111-120 | a bucket is the client's acceptance history with an old part evicted |
| `RateLimiter.DecidesByHistory` | api/server.py:112-120 | the evicting deque decides as a count over the whole acceptance history would |
| `RateLimiter.HistorySpaced` | api/server.py:112-120 | any accepted request is over 60 s later than the one `limit` before it |
| `RateLimiter.WindowHoldsAtMostLimit` | api/server.py:85-121 | every closed 60-second interval holds at most the limit of accepted requests per client |
| `RateLimiter.RejectionsCostNothing` | api/server.py:115-121 | without the rejected requests all others are decided the same |
| `RateLimiter.ClientsAreIndependent` | api/server.py:108-121 | a client's requests alone are decided as in the whole run |
| `Nonce.NonceCounter.constructor` | core/crypto.py:436-439 | a counter starts at 0 with a four-byte prefix |
| `Nonce.NonceCounter.NextNonce` | core/crypto.py:441-447 | counter and result of one call, exhaustion included |
| `Nonce.NoncesRise` | core/crypto.py:425-447 | exactly 2^64 - 1 calls succeed; their nonces are 12 bytes, share the prefix, count the calls from 0 and strictly rise in byte order |
| `Bytes.MonotoneBE` | core/crypto.py:447 | big-endian encoding of one width is strictly monotone in byte order |
| `Bytes.StripsBack` | mesh/transport.py:183-213 | a text field comes back exactly when it fits and does not end in NUL |

## Left out

- The inside of Ed25519, X25519, ML-KEM, ChaCha20-Poly1305, HKDF, HMAC, Argon2 and Scrypt: `Primitives` assumes lengths and correctness, `Handshake` and `IdentityFile` take them as perfect terms. Nothing is claimed about secrecy.
- Sockets, the event loop, timers, JSON, base64 and the disk. A timeout may strike at any time, and time, random bytes and the outcome of a send are arguments. Handlers are atomic, since none of them waits in the middle of an update.
- SQLite and the encryption of queued payloads: the table is a sequence of rows in insertion order, and opening and closing the database is left out.
- `core/store.py`, `mesh/discovery.py` and `cli/mesim_cli.py`: queries, dictionary updates and user interface, which would add only easy members.
- Routing from end to end. The network starts at the router's handler with a decoded packet; transport dispatch drops ORIGINATOR packets from addresses with a session, because they carry an all-zero MAC (mesh/transport.py:524-532). Lookup of bundles is by the 32-digit id; a bundle registered under another form counts as unknown.
- Sender ids that are not the sender's own, and tables changed from outside the handler and the purge: the route results are about nodes that run this code.
- Floating point: times are real numbers, and the timestamp in a packet is its eight bytes.
- Coverage.FloodReachesAll: is about runs in which sessions and known bundles stay as they are; with fewer hops it says nothing, since the first copy to arrive may come the long way round.
- Restarts, which reset message ids and sequence numbers; clocks that go back; message ids and sequence numbers beyond 32 bits in `OriginatorNet` and `RetryRuns`.
- Runs with fragments of one message id that disagree on frag_total: the runs of `Reassembly` are about fragments their sender made; one step with any fragment is `Fragments.StoresExactly`.
- RetryRuns.DeliveryBound: excludes networks that duplicate datagrams; `Reassembly.DeliveriesBounded` is the bound for those.
- RetryRuns.NeverReturns: concerns the ids of one sender before its 32-bit counter is exhausted.
- Transport.MeshTransport.Dispatch: what the handshake handlers do is in `Handshake`; what registered callbacks do is left out, and so is `established_at`.
- Transport.MeshTransport.RetrySweep: gives what happens to each entry, not the order within one sweep.
- Handshake.Endpoint.EndConnect: a wait's success is an argument that is allowed to be true only when the event is set.
- Handshake.Endpoint.HandleHandshake: whether a payload is a valid bundle is an argument, decided in `Bundle`; in the runs of `KeyAgreement` all packets come from nodes that run this code. The same holds of HandleResp, HandleKeyInit and HandleKeyAck.
- Router.MeshRouter.HandleOriginator: originator ids that are not ASCII, whose undecodable bytes the source replaces, are left out.
- ForwardQueue.StoreForward.FlushPeer: the console line and the 30-second loop that calls it are left out; flushes may come at any time.
- Identity.CanonicalDetermines: texts are their UTF-8 bytes, since no Unicode strings are modelled.
