# EasyTun: a verified model

EasyTun is a layer-3 tunnel. A server leases virtual addresses to its clients, resolves their
names, relays their packets and coordinates hole punching; pairs of clients run Noise IK sessions
through it. This project models five parts of it in Dafny and proves what they keep over whole runs.

- **Noise sessions** (`NoiseProtocol`, `NoiseAgreement`, `NoiseCollision`, `NoiseNonce`,
  `NoiseQueue`, `NoiseManager`). Any number of peers on a network that loses, duplicates and reorders. A step is
  one call of `HandshakeInit` or `HandleNoisePacket`, one payload sent, or one session swept. A
  handshake is an ideal token: fresh numbers determine its two keys, nobody forges its messages,
  and the source address of a message is the sender's.
- **Leases** (`Hostname`, `HubLease`, `HubRuns`, `HubServer`). Handshake, disconnect, reconnect and
  expiry as single steps over the free stack, the retention map, the DNS table and the router.
  The field `lost` is history: leases that nothing names any more.
- **Packets** (`Codec`, `PacketBuffer`). The wire format, compression and sealing. The AEAD
  (section 2.8 of RFC 8439) and LZ4 are parameters, function values with their laws as
  preconditions.
- **Relay** (`Relay`, `RelayRuns`, `RelayExact`, `RelayServer`). Receive, transfer, queue and batch-write steps
  over an explicit heap of reused buffers, in every interleaving.
- **Hole punching and the DNS packet** (`Tunnel`, `TunnelRace`, `TunnelManager`, `Checksum`,
  `DnsPacket`). The race model takes each atomic read and write of a tunnel record as a step.

Each part has a state machine over values, about which the properties are proved for every run,
and a class with the program's fields whose methods are proved to carry out its steps.

Where the code does less than its comments or its documentation say, the model follows the code:

- `HandshakeInit` replaces an existing session and the sweep drops one that is in use. Two ready
  peers can then disagree on their keys. `InitExact` and `DropExact` say exactly when, for the first
  such step of a run; `InitBreaks` and `SweepBreaks` give a run of two steps after which it happens.
- A second handshake on one connection, or a second disconnect under one client ID, loses an
  address for good (`LeaseConservation`, `AddressLost`, `RetainedLost`), and the former leaves a
  stale route (`RouterStep`).
- The limit of six attempts per tunnel is on a 32-bit counter that wraps (`SeventhAttempt`). It also
  gives way to races, because a close report writes the status before it counts: what holds is
  6 + n attempts for each transfer worker, with n connections reporting (`BoundedRace`), and that
  many are reached (`BoundReached`): seven with one worker and one late report, eight for each of
  the program's two workers with both endpoints late.
- A close report can be overwritten by a success report that had looked at the record before
  (`StaleSuccess`).
- A name that contains a dot may not be found in the `.et` domain (`StripExact`, `StripFails`).
- The README of the repository promises broadcast and multicast forwarding; `transfer` drops both
  (`TransferExact`, `BroadcastDropped`).
- The README of the repository calls the length field the ciphertext length; plaintext packets add
  the 16 bytes of the tag as well, and the parsers expect that (`ControlExact`).
- A UDP checksum of zero is sent as zero, not as all ones as RFC 768 asks (`BuildDNSResponse`,
  `ZeroFieldReached`).

Check everything with `dafny verify dfyconfig.toml` (Dafny 4.11).

## Model

| member | source | states |
|---|---|---|
| NoiseAgreement.AuthenticStep | internal/protocol/noise.go:159-220 | every step, of any peer, keeps every session backed by messages its two peers really sent, with fresh numbers used once |
| NoiseAgreement.VerdictExact | internal/protocol/noise.go:159-220 | the caller is told to use the session exactly when it had keys, that an answer went out exactly when one did, that the session is complete exactly when it then got its keys, and is refused exactly when nothing changed |
| NoiseAgreement.Agreement | internal/protocol/noise.go:141-220 | over every run with loss, duplication, reordering and both sides initiating or re-initiating, two ready peers hold one handshake and each sends with the key the other receives with, provided that the higher peer never initiates as ready responder, and that only the higher peer sweeps a session, and not as ready responder |
| NoiseAgreement.InitExact | internal/protocol/noise.go:151-153 | after any run that sweeps nothing and initiates only without a session, initiating now keeps agreement in all futures within the conditions of Agreement if and only if the initiating peer has the lower address or is not a ready responder |
| NoiseAgreement.DropExact | internal/protocol/noise.go:222-241 | the same for sweeping a session: if and only if there is none, or the higher peer sweeps and is not a ready responder, or the lower peer sweeps while the higher one is a ready responder that never initiated |
| NoiseAgreement.InitBreaks | internal/protocol/noise.go:151-153 | after the lower peer has initiated and the higher one answered, the higher one initiating over its session breaks agreement |
| NoiseAgreement.SweepBreaks | internal/protocol/noise.go:230-239 | in the same state, so does sweeping the higher peer's session |
| NoiseCollision.CollisionWinner | internal/protocol/noise.go:174-181 | once both peers have initiated, in every run that sweeps nothing and initiates only without a session, the lower one stays on its own handshake and the higher one is never ready on another |
| NoiseCollision.CollisionResolves | internal/protocol/noise.go:174-194 | in every such run, whatever happens in between, delivering the initiation that wins and later the answer leaves both peers ready on it with crossed keys, and so they stay |
| NoiseCollision.ReadyRun | internal/protocol/noise.go:164-173 | in every such run readiness, role and keys are permanent |
| NoiseNonce.NonceFreshness | internal/protocol/cipher.go:33-68 | in every run whatever, sweeps and re-initiations included, no sending key is installed twice, the counters used under a key have no gap, and among counters below 2^64 no key meets the same nonce bytes twice |
| NoiseNonce.DistinctNonces | internal/protocol/packet.go:84-96 | different counters below 2^64 give different nonce bytes, whatever the source addresses |
| Bytes.BigEndianReads | internal/protocol/packet.go:84-96 | the counter bytes, read from the first one on, give the counter, for every width it fits |
| NoiseNonce.SealsNext | internal/transport/client_udp.go:66-82 | in every run a payload of up to 65519 bytes for a ready session is sealed under its key with the least counter not used under it, and no other payload is sealed |
| NoiseQueue.QueueExact | internal/protocol/noise.go:87-96 | in every run, re-initiations, sweeps and collisions included, a session without keys holds exactly the first 24 payloads handed over since its initiation, in order, and a session with keys holds none |
| NoiseQueue.InjectionExact | internal/protocol/noise.go:184-193 | in every run, the step that gives an initiator its keys puts exactly those payloads back into the tunnel channel, in order, and no other step puts any |
| NoiseQueue.AnswerInjects | internal/protocol/noise.go:184-193 | delivering the answer to a pending handshake is such a step, and there is at least one payload |
| NoiseQueue.InjectedExactly | internal/protocol/noise.go:184-193 | all that a run puts back for a pair is one such block for each completion, none twice and none missing |
| NoiseManager.NoiseSession.AddPendingData | internal/protocol/noise.go:87-96 | queues up to 24 payloads before readiness and swallows all others |
| NoiseManager.NoiseSession.Complete | internal/protocol/noise.go:189-192 | installs the keys with the counter at zero, closes the queue and drains it in order |
| NoiseManager.NoiseManager.SetSession | internal/protocol/noise.go:115-125 | the copied table differs from the old one in one entry |
| NoiseManager.NoiseManager.HandshakeInit | internal/protocol/noise.go:141-156 | files a pending initiator session with the payload queued, over whatever was there |
| NoiseManager.NoiseManager.ResponderFirst | internal/protocol/noise.go:198-220 | is the protocol's answer step: session replaced and reply sent on an initiation, nothing changed otherwise |
| NoiseManager.NoiseManager.HandleNoisePacket | internal/protocol/noise.go:159-196 | is the protocol's receive step on the one session it concerns: table, reply, verdict (VerdictExact) and re-injected payloads (InjectionExact) |
| NoiseManager.NoiseManager.PacketSend | internal/transport/client_udp.go:66-82 | is the protocol's send step: nothing, queued, or sealed under the next counter; a ready session, and no other, is marked as seen now |
| NoiseManager.NoiseManager.SweepSessions | internal/protocol/noise.go:222-241 | publishes the table without exactly the sessions last seen more than the timeout ago |
| Hostname.ItoaInjective | internal/util/format.go:37 | different suffix numbers have different decimal forms |
| Hostname.ItoaReads | internal/util/format.go:37 | the suffix is the number in decimal, without leading zeros |
| Hostname.ProbesBounded | internal/util/format.go:35-42 | every failed probe is another name in the table, so there are at most as many as names |
| Hostname.Unique | internal/util/format.go:28-43 | the name is free, is the wanted one if that is free, and otherwise has the least free suffix |
| Hostname.UniqueHostName | internal/util/format.go:28-43 | the loop ends within one probe more than the table has names, on that name |
| Hostname.NamesOf | internal/util/format.go:28-43 | a free `web` stays `web`; taken, it becomes `web-1`, and `web-2` when that is taken too |
| Hostname.StripExact | internal/transport/server_dns.go:45-53 | a query `h.et.` is looked up as `h` if and only if `h` from the first `.et.` of the query on is copies of `.et.` |
| Hostname.StripFirst | internal/transport/server_dns.go:48 | the first `.et.` of a query is cut out wherever it is, and without one the query stays as it is |
| Hostname.StripFails | internal/transport/server_dns.go:48 | the name `x.et` in the domain is looked up as `xet.` |
| HubLease.LeaseSafety | internal/transport/server_ws.go:153-165 | in every run, repeated handshakes and shared client IDs included, the addresses 2 to 254 and no others are in free stack, retention, live connections or lost, each in one of them and there once |
| HubLease.DnsRefinement | internal/transport/server_dns.go:15-43 | in every run the DNS table is exactly the injective table of held, retained and lost leases |
| HubLease.DnsAnswers | internal/transport/server_dns.go:45-53 | a live client is found under its name in the domain exactly under the condition of StripExact, and always when the name has no dot |
| HubLease.LookupExact | internal/transport/server_dns.go:45-53 | in every run a query is answered with an address if and only if what is left of it without the domain is the name of a held, retained or lost lease of that address, and with none if and only if there is no such lease |
| HubRuns.LeaseConservation | internal/transport/server_hub.go:132-164 | in every run the addresses 2 to 254 are exactly the free, retained, held and lost ones, 253 together; as many are lost as steps handshake over a held lease or disconnect over a retained one; no address is granted exactly when the client ID is not retained and the other three places hold all 253 |
| HubRuns.AddressLost | internal/transport/server_ws.go:159-171 | a connection that handshakes twice loses address 2, which stays in the router |
| HubRuns.RetainedLost | internal/transport/server_ws.go:252-256 | of two connections under one client ID that disconnect one after the other, the first one's address is lost |
| HubRuns.NothingLost | internal/transport/server_ws.go:153-169 | when no connection that holds a lease handshakes again and no live client ID is used twice, nothing is lost, and no address is granted exactly when the client ID is not retained and 253 leases are held or retained |
| HubRuns.SessionContinuity | internal/transport/server_ws.go:152-158 | a client that disconnects, its ID being used by no other live connection, gets its address and name back in its next handshake, whatever the others did meanwhile and whatever sweeps ran up to the expiry that the disconnect set |
| HubRuns.LeaseLapses | internal/transport/server_hub.go:174-184 | the first sweep past that expiry takes the name out of the table and puts the address on top of the stack, where the next new client gets it |
| HubRuns.DisconnectRetains | internal/transport/server_ws.go:245-258 | a disconnect retains the lease it finds under the client ID until the given expiry and leaves all other retained leases |
| HubRuns.HandshakeExact | internal/transport/server_ws.go:150-171 | a handshake obtains the retained lease of its client ID, else the top of the stack under the wanted name, or, if that is taken, under it with a dash and the least free number, else nothing; no other connection and no other retained lease changes |
| HubRuns.RouterStep | internal/transport/server_hub.go:81-129 | from an exact table with held addresses distinct from each other and from the free and retained ones, a step publishes an exact table if and only if it is not a handshake on a connection that holds an address |
| HubRuns.RouterCovers | internal/transport/server_hub.go:81-129 | in every run whatever, each held address is published for its holder and every other published address is a lost one |
| HubRuns.RouterRefinement | internal/transport/server_hub.go:81-129 | in every run without a handshake on a connection that holds an address, the published map is exactly address to holder |
| HubServer.HubServer.constructor | internal/transport/server_hub.go:17-58 | the stack holds 254 down to 2, so addresses are handed out from 2 upwards; all tables are empty and the invariant holds |
| HubServer.HubServer.GetIp | internal/transport/server_hub.go:132-150 | pops the top and fails exactly on the empty stack |
| HubServer.CopyRouter | internal/transport/server_hub.go:87-93 | copies the table, and lists its values once for each key in the order visited |
| HubServer.HubServer.AddClient | internal/transport/server_hub.go:81-101 | publishes a new snapshot: the old table with one entry set, and a slice of the old values followed by the client, which lists the new table when the address is new |
| HubServer.HubServer.SliceExact | internal/transport/server_hub.go:86-126 | next to an exact map, the published slice lists exactly the client objects that hold an address, each once |
| HubServer.HubServer.RemoveClient | internal/transport/server_hub.go:104-126 | publishes the table without the address and a slice that lists it, and nothing when it was not there |
| HubServer.HubServer.AddDns | internal/transport/server_dns.go:15-27 | publishes a new table with one entry set |
| HubServer.HubServer.RemoveDns | internal/transport/server_dns.go:29-43 | publishes a new table without the name |
| HubServer.HubServer.Grant | internal/transport/server_ws.go:153-165 | the retained lease with its entry removed, else the top address and a free name |
| HubServer.HubServer.HandleHandshake | internal/transport/server_ws.go:134-181 | a payload under 49 bytes changes nothing; otherwise the hub does the model's handshake step and keeps its invariant, NAT type and key are remembered, and the lease is reported to the client if its queue has room |
| HubServer.HubServer.HandleDisconnect | internal/transport/server_ws.go:245-264 | the hub does the model's disconnect step, with the expiry it is given (DisconnectRetains, SessionContinuity, LeaseLapses), and keeps its invariant |
| HubServer.HubServer.CleanRetention | internal/transport/server_hub.go:174-184 | expires exactly the overdue entries, in the order met, each by the model's expiry step, and keeps the invariant |
| HubServer.HubServer.HoldersListed | internal/transport/server_hub.go:90-95 | in every state that the handlers keep, the object of each holder is in the published slice |
| HubServer.HubServer.Replay | internal/transport/server_hub.go:81-129 | any run of the state machine, carried out by the operations behind the handlers (`Accept`, `Join`, `HandleDisconnect`, `Release`), ends in its state with a slice that lists the table; with one handshake per connection the slice is exactly the client objects that hold an address, each once |
| Codec.HeaderRoundTrip | internal/protocol/packet.go:155-178 | any packet laid out with a length that suits the mode is read back field by field |
| Codec.ControlExact | internal/protocol/packet.go:280-292 | the control parser accepts exactly the packets the encoder lays out, whatever the counter bytes, and returns what was laid out |
| Codec.PlainRoundTrip | internal/protocol/packet.go:77-106 | for every type the parser admits, plaintext encoding fails exactly on oversize payloads and is otherwise undone by both parsers |
| Codec.Reencode | internal/protocol/packet.go:280-292 | bytes the control parser accepts re-encode to themselves with the counter cleared |
| Codec.Compress | internal/protocol/compress.go:14-49 | a result is the compressor's own, non-empty, shorter than the payload and sendable |
| Codec.SealedParses | internal/protocol/packet.go:108-140 | a sealed data packet passes the keyless parser and opens to its payload in place |
| Codec.EndToEnd | internal/protocol/packet.go:200-278 | encoding a data packet fails exactly on a payload over 65519 bytes; otherwise, empty or not, compressed or not, encode, keyless parse and open give the payload back, also as the bytes behind the header of the raw buffer |
| Codec.EncodeExact | internal/protocol/packet.go:227-252 | encoding fails exactly on a payload over 65519 bytes and otherwise writes, byte by byte, magic, type with the flag exactly if the payload goes out compressed, destination, length, source, counter and payload; it is sealed under nonce and header unless the packet is a control packet, empty or without a key, and compressed exactly if it is over 128 bytes, its first 64 shrink to 50 and the whole shrinks |
| Codec.KeylessExact | internal/protocol/packet.go:155-198 | the parser without a key accepts a datagram if and only if it has 21 to 65556 bytes, the magic, a type below 128 or 0x88, and a length field that fits; it reads the fields off their places, and gives the reason when it refuses |
| Codec.OpenExact | internal/protocol/packet.go:200-217 | with a key, a packet with a payload is accepted if and only if it opens under its own nonce and header and, if flagged, uncompresses to 1 to 65519 bytes; its payload is then exactly that, and an unauthentic packet is refused as such |
| Codec.ClearExact | internal/protocol/packet.go:200-217 | without a key, or without a payload, the bytes behind the header are taken as they are, or uncompressed |
| Codec.AcceptedExact | internal/protocol/cipher.go:33-68 | under a cipher that seals deterministically, an unflagged packet is accepted with a payload if and only if it is, to the last byte of header, nonce and tag, what sealing that payload gives |
| PacketBuffer.BufPool.Get | internal/protocol/packet.go:263-267 | a pooled buffer that is large enough, or a new one, and no other change of the pool |
| PacketBuffer.GamePacket.ParsePacket | internal/protocol/packet.go:259-278 | the buffer holds the datagram, header, payload and error are the format's, the buffer is out of the pool, and a packet that fails costs the pool no buffer |
| PacketBuffer.GamePacket.DecryptInPlace | internal/protocol/packet.go:200-212 | decryption in the array is the format's (OpenExact), tail included |
| PacketBuffer.GamePacket.ReplacePayload | internal/protocol/compress.go:68-80 | the payload behind the old header, in place or in a larger buffer with the old one pooled |
| PacketBuffer.GamePacket.DecompressInPlace | internal/protocol/compress.go:52-83 | decompression in the array is the format's, and no buffer is in the pool twice or while in use |
| PacketBuffer.GamePacket.DecryptParse | internal/protocol/packet.go:200-217 | decrypting and decompressing the array is the format's function of its contents, which OpenExact and ClearExact pin down |
| Relay.OwnedStep | internal/transport/server_udp.go:114-145 | every step keeps every buffer with one owner, parse failures and full queues included |
| Relay.LinearOwnership | internal/transport/server.go:164-186 | in every interleaving, pending replies leaving in any order, no buffer is in two places or twice in one (pool, transfer queue, packet queue, batches, pending replies), and none was ever returned to the pool while it was in it |
| Relay.FaithfulStep | internal/transport/server_udp.go:219-275 | every step leaves the bytes of every packet on its way untouched and sends none twice |
| Relay.RelayTransparency | internal/transport/server.go:132-186 | in every interleaving, what is sent for a relayed packet is what was received, to the address of the client registered under its destination when it was routed, from a registered sender, once |
| Relay.AnswerTransparency | internal/transport/server_udp.go:109-121 | in every interleaving, what is sent as a DNS reply is one that was made, byte for byte, to the address it was made for |
| RelayRuns.TransferExact | internal/transport/server.go:135-186 | in every run the transfer loop takes the oldest packet and learns where its sender is; the packet goes to the end of the packet queue, whole, for its destination's address, if and only if its sender is registered, its destination is a registered host of 10.0.6.0/24 other than .255 whose client's address is known or is the sender itself, and fewer than 128 wait; otherwise its buffer is back in the pool |
| RelayRuns.BroadcastDropped | internal/transport/server.go:148-149 | a registered sender's packet to 10.0.6.255 or to a multicast group is dropped, whatever it carries |
| RelayRuns.UnicastHandedOn | internal/transport/server.go:150-170 | a registered sender's packet to its own address is queued for where it came from |
| RelayRuns.NothingRoutedLost | internal/transport/server_udp.go:219-275 | in every interleaving, the packets handed on are exactly those in the packet queue, in one batch, or sent, each in one place and once |
| RelayRuns.DrainedIsSent | internal/transport/server_udp.go:231-275 | whenever queue and batches are empty, the packets handed on are exactly those sent |
| RelayExact.ReceiveExact | internal/transport/server_udp.go:77-146 | in every state a datagram goes to the end of the transfer queue, with its addresses and origin, if and only if it parses, its type byte is 8 or 0x88 and fewer than 128 wait; otherwise its buffer is back in the pool; a ping, and nothing else, updates its sender's address; over 65556 bytes no buffer is taken |
| RelayExact.EncodedQueued | internal/transport/server_udp.go:85-138 | in every run, what EncodePacket makes of a data packet, compressed or not, is queued for the addresses it was encoded with unless 128 wait, and the receiver reads the payload from it |
| RelayExact.RelayedReadable | internal/transport/server_udp.go:219-275 | in every run, what is sent for something a client encoded still gives its receiver the payload, and was routed by the destination it was encoded with |
| RelayExact.PullExact | internal/transport/server_udp.go:219-230 | a writer takes the oldest packet onto the end of its batch while that has fewer than 16, and touches no other batch |
| RelayExact.FlushExact | internal/transport/server_udp.go:231-275 | in every run a flush sends the whole batch in order, each packet with the bytes in its buffer and to its address, empties it, and returns exactly its buffers |
| RelayExact.DnsReplyExact | internal/transport/server_udp.go:109-121 | a DNS reply goes to the end of the packet queue for the address that asked unless 128 wait; then its buffer is back in the pool |
| RelayExact.QueryExact | internal/transport/server_ws.go:190-200 | an accepted key query keeps its buffer as the newest pending reply, a refused one gives it back |
| RelayExact.ReplyExact | internal/transport/server_ws.go:50-66 | in every run, writing out a pending reply returns both buffers, abandoning one returns none, and the other replies stay in order |
| RelayExact.PoolExact | internal/transport/server_udp.go:140-145 | the pool grows by a buffer in use nowhere, or loses one it holds |
| RelayExact.RegistrationExact | internal/transport/server_hub.go:81-126 | in every run the client under a virtual address is the one last registered there, unless it was withdrawn since |
| RelayExact.AddressExact | internal/transport/server.go:193-201 | in every run a client's address is where it was last heard from, by a ping or by a data packet taken for transfer |
| RelayExact.RelayedThrough | internal/transport/server.go:135-186 | from every reachable state with empty queues, a deliverable data packet that comes in is sent, as it came, to its destination's address |
| RelayServer.RelayServer.Obtain | internal/protocol/packet.go:263-268 | a pooled array with room, or a new one |
| RelayServer.RelayServer.Put | internal/transport/server_udp.go:140-145 | returns an array that is not in the pool |
| RelayServer.RelayServer.Receive | internal/transport/server_udp.go:77-146 | one datagram on real arrays is the model's receive step, which ReceiveExact pins down, and keeps the invariant |
| RelayServer.RelayServer.Transfer | internal/transport/server.go:135-186 | one packet of the transfer loop is the model's step and keeps the invariant |
| RelayServer.RelayServer.Drain | internal/transport/server_udp.go:219-230 | the drain loop is a run of the model's pull steps until the batch is full or the queue empty |
| RelayServer.RelayServer.Flush | internal/transport/server_udp.go:231-275 | sending a batch and returning its buffers is the model's step and keeps the invariant |
| RelayServer.RelayServer.ReplyDns | internal/transport/server_udp.go:109-121 | queueing or dropping a DNS reply is the model's step and keeps the invariant |
| RelayServer.RelayServer.ReplyNoise | internal/transport/server_ws.go:190-200 | keeping or returning a key reply's buffer is the model's step and keeps the invariant |
| RelayServer.RelayServer.WriteReply | internal/transport/server_ws.go:58-64 | encoding any pending key reply and returning both buffers is the model's step and keeps the invariant |
| RelayServer.RelayServer.AbandonReply | internal/transport/server_ws.go:52-57 | dropping a key reply whose connection gives no writer is the model's step and keeps the invariant |
| RelayServer.RelayServer.RegisterClient | internal/transport/server_hub.go:81-101 | publishing a client under an address, be it its second, is the model's step and keeps the invariant |
| RelayServer.RelayServer.UnregisterClient | internal/transport/server_hub.go:104-126 | withdrawing a client is the model's step and keeps the invariant |
| Tunnel.MakeKeyExact | internal/stun/server.go:59-70 | two pairs have the same key if and only if they are the same unordered pair |
| Tunnel.BoundedAttempts | internal/transport/server_p2p.go:15-32 | in every run each record sits under its own pair's key and, before its counter wraps, was let through at most six times |
| Tunnel.BoundedPromptAttempts | internal/transport/server_p2p.go:60-67 | at most three times, before the counter wraps, when every attempt is dispatched before the next close report |
| Tunnel.ThreeAttempts | internal/transport/server_p2p.go:60-67 | three rounds of attempt, dispatch and close report reach that bound of three, with six counted |
| Tunnel.FourthRefused | internal/transport/server_p2p.go:26-30 | after them a fourth attempt changes nothing, whatever the NAT types |
| Tunnel.FailedOnlyReadmitted | internal/transport/server_ws.go:205-227 | in every run that keeps the record, one that was failed and no longer is came back through a step that found it failed, was let through and made it initial |
| Tunnel.AttemptsCounted | internal/transport/server_p2p.go:23-30 | the count that BoundedAttempts bounds is the number of steps that were let through |
| Tunnel.CountsExact | internal/transport/server_p2p.go:60-67 | in every run that keeps a record, its history counts exactly the dispatches of the pair and the close reports on it, and its counter is their sum in 32 bits |
| Tunnel.AttemptExact | internal/transport/server_p2p.go:15-51 | an attempt is let through exactly if both NAT types are above 2 and the pair has no record or a failed one with a counter below six; it then makes the record initial and queues its task unless 32 wait, and otherwise changes nothing |
| Tunnel.EstablishedExact | internal/transport/server_ws.go:205-215 | a success report connects a record that is missing, initial or connected, leaves a failed one failed, and changes no other |
| Tunnel.CloseExact | internal/transport/server_ws.go:218-227 | in every run a close report fails the pair's record and adds one to its 32-bit counter; without a record it changes nothing |
| Tunnel.DispatchExact | internal/transport/server_p2p.go:59-67 | in every run the dispatcher takes the oldest task and adds one to its record's counter, or adds an initial record with the counter at zero if it is gone |
| Tunnel.ReadmitExact | internal/transport/server_p2p.go:26-30 | a failed pair is let through exactly when both NAT types are known and closes plus dispatches modulo 2^32 are below six |
| Tunnel.SixAttempts | internal/transport/server_p2p.go:15-32 | the bound of six is reached |
| Tunnel.SeventhAttempt | internal/stun/server.go:34-36 | a run in which the counter wraps lets a seventh attempt through |
| TunnelRace.BoundedRace | internal/transport/server_p2p.go:15-32 | with m transfer workers and n reporting connections, in every interleaving of all their atomic reads and writes of a record with dispatches and success reports, each worker is let through at most 6 + n times before the counter wraps, and all together (6 + n) m times |
| TunnelRace.BoundReached | internal/transport/server_ws.go:223-224 | for every m and n from 1 on some run with n reporters lets each of the m workers through 6 + n times with six reports counted |
| TunnelRace.SevenAttempts | internal/transport/server_ws.go:223-224 | one worker gets seven attempts when one endpoint counts late |
| TunnelRace.SixteenAttempts | internal/transport/server_udp.go:47-49 | two workers get eight each when both endpoints count late |
| TunnelRace.FailedOverwritten | internal/transport/server_ws.go:210-212 | one atomic access turns a failed status into another exactly when it is the write of a worker that was let through, or of a success report that had seen the initial status |
| TunnelRace.StaleSuccess | internal/transport/server_ws.go:210-212 | the latter happens: a record connects after it failed, with nobody let through again |
| TunnelRace.WorkerExact | internal/transport/server_p2p.go:26-29 | a worker that saw the failed status is let through exactly if it then finds fewer than six counted, is idle again once it has written or was refused, and no other access moves it |
| TunnelRace.ReporterExact | internal/transport/server_ws.go:205-227 | a connection writes connected exactly if it found the initial status before, and counts a close exactly if it wrote the failed status before |
| TunnelRace.DispatchesCounted | internal/transport/server_p2p.go:60-67 | in every run each dispatch is counted once |
| Tunnel.RemoveAllExact | internal/stun/server.go:106-117 | deletes exactly the records naming the address and keeps the others as they are |
| Tunnel.RemovePairExact | internal/stun/server.go:98-104 | deletes the record of the unordered pair and keeps all others as they are |
| TunnelManager.TunnelManager.Exist | internal/stun/server.go:73-80 | finds a record exactly when one names both addresses, in either order, and there is no second |
| TunnelManager.TunnelManager.AddTunnel | internal/stun/server.go:83-95 | adds a record only where there is none |
| TunnelManager.TunnelManager.IfEstablish | internal/transport/server_p2p.go:15-50 | decides and updates as the model's attempt step, queueing up to 32 dispatches, and keeps the bound |
| TunnelManager.TunnelManager.DispatchTask | internal/transport/server_p2p.go:60-67 | counts the attempt as the model's dispatch step |
| TunnelManager.TunnelManager.HandleP2PEstablished | internal/transport/server_ws.go:205-215 | is the model's report step |
| TunnelManager.TunnelManager.HandleP2PClosed | internal/transport/server_ws.go:218-227 | is the model's close step |
| TunnelManager.TunnelManager.RemovePair | internal/stun/server.go:98-104 | is the model's removal step |
| TunnelManager.TunnelManager.RemoveA | internal/stun/server.go:107-117 | deleting while iterating is the model's removal step |
| Checksum.FoldKeeps | internal/util/dns.go:104-106 | folding keeps the sum modulo 65535 and turns nothing but zero into zero |
| Checksum.ComplementFills | internal/util/dns.go:95-108 | adding the complement of the folded sum makes all ones |
| Checksum.SumWords | internal/util/dns.go:97-103 | the 32-bit loop computes the true word sum modulo 2^32, odd lengths included |
| Checksum.FoldDown | internal/util/dns.go:104-106 | the loop ends with the folded sum |
| Checksum.Compute | internal/util/dns.go:96-108 | the complement of the folded 32-bit sum, which is the one's-complement sum for data of up to 131074 bytes |
| DnsPacket.IpHeaderSums | internal/util/dns.go:66-76 | a header with the complement of its sum in place sums to all ones |
| DnsPacket.UdpSums | internal/util/dns.go:111-125 | so does a UDP segment with its pseudo-header |
| DnsPacket.ZeroFieldExact | internal/util/dns.go:88-90 | what the UDP checksum of a built packet covers sums to all ones, so that the field is zero, exactly when its words sum to a multiple of 65535 |
| DnsPacket.ZeroFieldReached | internal/util/dns.go:88-90 | it is zero for an empty answer to port 57254 between 10.0.6.1 and 10.0.6.2 |
| DnsPacket.BuildDNSResponse | internal/util/dns.go:51-93 | an answer under 2 bytes is refused; every header field (version, lengths, flags, lifetime 64, protocol, addresses, ports) and the payload are right and both checksums verify if and only if the answer has at most 65509 bytes, and then the UDP field is sent as zero exactly under the condition of ZeroFieldExact |

## Left out

- Sockets, the tunnel device, STUN queries, the user interface and configuration: foreign input and output.
- The inside of ChaCha20-Poly1305, LZ4, the Noise library and the DNS message library: parameters or ideal objects here.
- `buildDnsResponse`: what it returns is decided by a library; a DNS reply enters the relay as ready bytes, and so does an encoded key reply.
- Races inside a step: locks released within a handshake or a disconnect, the DNS table read before the lock, and two threads inside one `HandleNoisePacket`. Tunnel records have a model without such steps, `TunnelRace`; there a record's lookup and its insertion under the lock stay single.
- A sender that claims another client's address in its packets: the model's network delivers a handshake message under its sender's address.
- Buffers on the client's sending side, including those that compression exchanges: they follow no single ownership rule.
- Packet and transfer objects that are pooled themselves: they are values in the relay model; the arrays they carry are not.
- Empty slices that clean-up paths put into the pool: a pool entry without an array, the same as a newly made buffer to whoever gets it.
- The choice of hole-punching commands by NAT type, and whether hole punching ever succeeds.
- Byte counts formatted for display, reconnect delays, address conversions: easy or cosmetic.
- HubServer.HubServer.HandleDisconnect: takes the expiry, which the program computes from its clock and the configured retention time; and does not include the removal of the client's tunnels, which is TunnelManager.RemoveA on a separate state.
- Tunnel.FailedOnlyReadmitted: takes each handler as one step; between single reads and writes it is false (`StaleSuccess`), and `FailedOverwritten` says what holds there.
- Tunnel.BoundedAttempts: takes each handler as one step; `BoundedRace` is the bound without that.
- RelayServer.RelayServer.Transfer: does not include the decision on a hole-punching attempt inside the loop, which is TunnelManager.IfEstablish on a separate state.
- NoiseManager.NoiseManager.HandleNoisePacket: does not include the refresh of a session by a packet that decrypts, which happens in the receive loop after it.
