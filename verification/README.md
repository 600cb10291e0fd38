# TyxNet, modelled and verified in Dafny

TyxNet is a central-star VPN: devices authenticate to a server over an HTTPS control stream, receive remote
commands there, and exchange IPv4 packets through an encrypted UDP relay. This project models the parts whose
correctness spans several functions or a whole run, and proves what they keep.

| module | models |
|---|---|
| `Words`, `Bits`, `BigEndian` | byte strings, unsigned words and their binary digits, big-endian integers |
| `PacketCodec`, `SigningPayload` | the packet format and the bytes a device signs |
| `ReplayWindow`, `DataChannel`, `Endpoints` | anti-replay window, one encrypted direction against an adversarial network, its two ends as code |
| `Sessions`, `StarNetwork` | session tables and routes; adapters, server and adversary together |
| `CommandStore`, `CommandProtocol` | the command table; delivery, deduplication, acceptance and execution end to end |
| `Challenges`, `CommandResults` | one-use challenges and the two kinds of device proofs; reports from proof to result row |
| `FlowKeys`, `TrafficLog`, `TrafficMonitor`, `TrafficMeter` | flow keys and their order, sums over a log, the monitor over whole runs, the monitor's code |
| `AddressPool`, `Enrollment` | address search, tokens, joins and static assignments |
| `FlowHistory`, `RateLimiter` | the bounded history table and the request limiter |

Code that changes things step by step is a class or a method with loops, proved against a function of the old
state (`View`, `Hits`, a ghost history). Protocols are state machines: a `Step` function over events that carry
every choice the environment has, and theorems about `Run` over all event sequences.

Assumptions, each visible in the model:

- The AEAD is ideal: a channel carries the table of everything sealed under its key, and opening succeeds exactly
  on an entry with the same nonce, ciphertext and header (section 2.8 of RFC 8439 for what is authenticated).
  Ciphertexts are arbitrary strings of the right length. HKDF is ideal: each (session, direction) has its own key.
- Signatures are ideal: a signature verifies a message only if the device itself signed it. A device signs whatever
  arrives as a connect challenge, of any length, and reports for any 32 bytes. Random session numbers, nonces and row
  ids are fresh.
- One clock that does not go back; times are integers. SQL transactions are atomic and tables are maps.

Where code and notes disagree, the model follows the code:

- `docs/protocol.md:67` speaks of 64 prior packets; the window holds 64 numbers including the highest
  (`internal/crypto/session.go:124`; `OldestInWindow`, `FirstOf65IsRefused`). A number that fails authentication
  still raises the highest; `UnauthenticCost` states exactly which numbers that costs, and
  `OneDatagramSilencesASession` that it can cost all of a session's direction.
- The address search starts from the written address. From prefix 12 on it finds the least free address above the
  written one + 1, or none exactly when there is none (`LeastAssignable`); that is the least of the whole network
  exactly when nothing is free below (`LeastOfNetworkExactly`), so always in an aligned network (`AlignedFindsLeast`)
  but not in every CIDR the configuration accepts (`UnalignedMissesFree`). Below prefix 12 the step bound can end it
  early (`LargeNetworkMissesFree`); `LeastExactly` says when it does not. In a /0 it can wrap around
  (`WholeSpaceWraps`).
- The search skips addresses ending in 255 and the written address + 1, not the broadcast address or the configured
  server address. For every written address, prefix and server address, no run enrols a reserved address if and only
  if the search can hand out none of them (`AddressesGoodExactlyIfSafe`); from prefix 12 on that means that the
  broadcast address ends in 255 or is not ahead of the search, and likewise for the server (`SafeSpelledOut`,
  `ServerAddressEnrolled`).
- The client signs a connect challenge of any length, so connect proofs and result proofs are kept apart only while
  what arrives as a challenge has 32 bytes (`AcceptancesAreBackedAndDistinct`, `ConnectSignatureAcceptedAsReport`).
- Routes are removed by address, so "every live session is routed" holds exactly while addresses are not shared
  (`RegisterKeepsRoutesExactlyIfFree`, `SharedAddressLosesItsRoute`).
- The client's dedupe map alone does not give at-most-once execution (`PruningAloneLeavesAGap`); the server's
  refusal of a late acceptance closes the gap (`ServerRefusesSecondAcceptance`).

## Model

| member | source | states |
|---|---|---|
| `CommandProtocol.AtMostOnce` | internal/client/client.go:324-367 | In every interleaving of redelivery, repeated stream copies, lost, retried and stray reports, expiry and pruning, each command is executed at most once, and only after the server committed its acceptance no later than its expiry |
| `CommandProtocol.ServerRefusesSecondAcceptance` | internal/storage/store.go:871-879 | In every reachable state where an executed command is being accepted again, the store refuses and the client does not advance |
| `CommandProtocol.PruningAloneLeavesAGap` | internal/client/client.go:332-341 | A run in which an executed command passes the expiry check, is pruned, and reaches acceptance a second time |
| `CommandProtocol.RetriesRecordOnce` | internal/client/client.go:369-391 | However many attempts reach the server or lose their reply, a report adds at most one result row, and none if the command already had that status |
| `CommandProtocol.Client.PruneHandled` | internal/client/client.go:331-338 | The loop leaves exactly the entries not past their expiry, at one clock reading for each entry |
| `CommandProtocol.Client.ReportCommandResult` | internal/client/client.go:369-391 | The retry loop stops at the first confirmed attempt and leaves the store as that series of reports does |
| `CommandProtocol.TriedStopsAtFirst` | internal/client/client.go:370-391 | The table is that of all attempts up to the first confirmed one, or of all of them; confirmed exactly if there is one |
| `CommandProtocol.Client.HandleControlCommand` | internal/client/client.go:324-367 | Store, dedupe map, outcome and execution are those of `Handle`, which the next six rows pin down and place in a run |
| `CommandProtocol.HandleRefuses` | internal/client/client.go:325-345 | Which refusal comes when, in the order of the checks, and what each leaves unchanged |
| `CommandProtocol.HandleExecutes` | internal/client/client.go:346-367 | With a confirmed acceptance the command is remembered and executed, and the other unexpired entries stay |
| `CommandProtocol.VerdictIsTrue` | internal/client/client.go:349-366 | A command becomes succeeded in a call only if the action succeeded or it is a reconnect, failed only if the action failed |
| `CommandProtocol.CommandIsCarriedOut` | internal/client/client.go:324-367 | A waiting, in-time, unremembered command whose reports get through is executed and ends with the rows accepted and verdict and the client's result and error texts |
| `CommandProtocol.HandleIsRun` | internal/client/client.go:324-367 | Every call, with any lost, late and retried reports, is a sequence of protocol events leading to the tables, map and executions it leaves |
| `CommandProtocol.CodeExecutesAtMostOnce` | internal/client/client.go:324-367 | After every run a call continues the run, and executes its command only if it was never executed before and after the server committed its acceptance no later than its expiry |
| `CommandProtocol.WritePendingCommands` | internal/control/server.go:672-690 | Sweeps, lists at most 20 oldest first, then marks and writes each in turn until a write fails; the failing command stays marked |
| `CommandProtocol.WritePendingIsRun` | internal/control/server.go:672-690 | Every call is a sweep and write events leading to the tables it leaves, with everything it wrote in the stream |
| `CommandProtocol.WrittenExactlyUnexpired` | internal/control/server.go:677-688 | A listed command is marked delivered and written exactly when it is unexpired at its turn |
| `CommandProtocol.UnlistedUntouched` | internal/control/server.go:677-688 | Commands not listed and all result rows stay as they were |
| `CommandStore.StatusOnlyMovesUp` | internal/storage/store.go:816-923 | In every run a command's status only moves up queued, delivered, accepted, terminal, and what it asks for never changes |
| `CommandStore.TerminalNeverChanges` | internal/storage/store.go:857-894 | A succeeded, failed or expired command is never changed again by any run |
| `CommandStore.RunKeepsRows` | internal/storage/store.go:857-894 | In every run the result rows of a command are the part of accepted, then succeeded or failed, that its status tells |
| `CommandStore.VerdictOnlyFromAccepted` | internal/storage/store.go:883-887 | Success or failure is set only by a report on an accepted command no later than its expiry |
| `CommandStore.RetriedReport` | internal/storage/store.go:872-882 | Repeating a successful report succeeds and changes nothing, except that an acceptance repeated after the expiry is refused; it never adds a row |
| `CommandStore.ReportTouchesOneCommand` | internal/storage/store.go:857-894 | A report changes one command, and to accepted only from a waiting status in time |
| `CommandStore.ReportsExactly` | internal/storage/store.go:857-894 | For every report and command: expired, repeated, advanced with status, result, error and a row, or refused, and the error for each |
| `CommandStore.SweepsExactly` | internal/storage/store.go:825-905 | The two expiry updates, command by command: exactly the overdue ones become expired, all else stays |
| `CommandStore.WholeLife` | internal/storage/store.go:801-894 | A command created, delivered, accepted and finished in time goes through all four states with both rows |
| `CommandStore.Store.CreateCommand` | internal/storage/store.go:801-819 | Accepts exactly allowed types, TTLs up to five minutes and unrevoked devices, and queues the command |
| `CommandStore.Store.PendingCommandsForDevice` | internal/storage/store.go:820-842 | Expires exactly the overdue waiting commands of the device and returns its oldest waiting, unexpired commands up to the limit |
| `CommandStore.Store.MarkCommandDelivered` | internal/storage/store.go:843-856 | Marks exactly an unexpired waiting command of that device |
| `CommandStore.Store.UpdateCommandResult` | internal/storage/store.go:857-894 | Outcome and tables for every status, error and expiry case, rows kept consistent |
| `CommandStore.Store.ListCommands` | internal/storage/store.go:901-923 | Expires exactly the unfinished overdue commands, and the list holds the newest commands in scope, newest first, up to the limit |
| `Challenges.AcceptancesAreBackedAndDistinct` | internal/control/server.go:554-709 | Every accepted connect or result consumed its own unexpired challenge issued to that device and rests on a signature over that nonce, or over that report and nonce; while devices sign only 32-byte connect challenges it was made for exactly that purpose |
| `Challenges.ConnectSignatureAcceptedAsReport` | internal/client/client.go:253-257 | A run in which the signature over a connect challenge that is itself a result payload is accepted as that report |
| `Challenges.NonceSignatureIsForConnect` | internal/control/server.go:588-588 | A verified 32-byte nonce was signed as a connect proof, never as a result |
| `Challenges.PayloadSignatureIsForResult` | internal/control/server.go:705-706 | While devices sign only 32-byte connect challenges, a verified result payload was signed as that report for that nonce |
| `Challenges.PayloadSignatures` | internal/control/server.go:705-706 | A result payload verifies exactly if it was signed as that report for that nonce, or word for word as a connect challenge |
| `Challenges.Handlers.DeviceChallenge` | internal/control/server.go:554-575 | Issues to active devices only, replacing the device's earlier challenge, as the protocol's issue step does |
| `Challenges.Handlers.DeviceConnect` | internal/control/server.go:582-591 | For any presented signature: accepts exactly an unexpired challenge whose nonce the signature verifies, from an active device; the challenge is gone either way; the outcome is that of the protocol's take and finish steps |
| `Challenges.Handlers.DeviceCommandResult` | internal/control/server.go:692-709 | For any presented signature: accepts exactly well-sized, signable reports whose payload it verifies; the challenge is gone unless the request was malformed; the outcome is that of the protocol's take and finish steps |
| `CommandResults.EveryRowIsSigned` | internal/control/server.go:692-716 | In every run, with other requests and store operations between proof check and update, each result row records one accepted report of the command's own device for an unexpired challenge issued to it and determines its command and result; no two rows rest on the same challenge; while devices sign only 32-byte connect challenges the signature was made as that report |
| `CommandResults.AcceptedReportIsRecorded` | internal/control/server.go:710-713 | The update of an accepted report one step further and in time appends its row and sets status, result and error word for word; any other adds no row |
| `SigningPayload.CommandResultSigningPayload` | pkg/protocol/command.go:28-44 | Succeeds exactly on signable fields and builds domain, zero byte, nonce and length-prefixed fields |
| `SigningPayload.PayloadSpelledOut` | pkg/protocol/command.go:28-44 | The signed bytes and the limits, spelled out |
| `SigningPayload.PayloadInjective` | pkg/protocol/command.go:28-44 | Equal payloads have equal nonces and equal fields |
| `SigningPayload.PayloadIsNoNonce` | pkg/protocol/command.go:32-43 | A payload is longer than 32 bytes |
| `DataChannel.OutputsAreSentOnce` | internal/dataplane/session.go:82-98 | For every schedule of loss, reordering, duplication and forgery the receiver yields only what was sealed in that channel, with its packet type, each at most once |
| `DataChannel.NoncesNeverRepeat` | internal/crypto/session.go:81-86 | For fewer than 2^64 sends no two sealed packets share a nonce |
| `DataChannel.NonceLayout` | internal/crypto/session.go:81-86 | Twelve bytes: the low half of the session number, then the sequence number |
| `DataChannel.NonceRepeatsExactlyAtWrap` | internal/crypto/session.go:81-86 | Two sends share a nonce exactly when they are a multiple of 2^64 apart |
| `DataChannel.HonestDatagramIsYielded` | internal/dataplane/session.go:93-98 | The sender's own datagram yields its plaintext and type exactly when its number is fresh, and nothing otherwise |
| `DataChannel.UnauthenticCost` | internal/crypto/session.go:90-134 | A datagram nobody sealed yields nothing; a number stays fresh exactly if it was and is less than 64 below a fresh claimed number |
| `DataChannel.NothingFarBelowIsYielded` | internal/crypto/session.go:90-134 | After such a datagram, in every continuation, no number 64 or more below the claimed one is yielded |
| `DataChannel.OneDatagramSilencesTheChannel` | internal/crypto/session.go:108-134 | With one such datagram claiming the highest number first, whatever its addresses, no later send is yielded while fewer than 2^64 - 64 packets are sent |
| `DataChannel.DeliverFacts` | internal/crypto/session.go:90-100 | One delivery yields nothing or one unopened entry of the table unchanged |
| `DataChannel.SealPacket` | internal/dataplane/session.go:82-91 | Produces the encoding of the packet with the ciphertext as payload, or the size error |
| `Endpoints.Sender.Send` | internal/dataplane/client.go:145-160 | Refuses exactly after the session's expiry; otherwise the wrapping counter and the datagram are those of the channel's next send, even when encoding fails |
| `Endpoints.Receiver.Receive` | internal/dataplane/client.go:106-130 | Type, session, destination and endpoint checks decide what reaches the channel; the adapter gets exactly what the delivery yields, if it is long enough, within the MTU and for the assigned address |
| `Endpoints.TurnIsClientStep` | internal/dataplane/client.go:106-130 | A turn writes exactly what the network's client step writes and leaves the same history |
| `ReplayWindow.Window.Accept` | internal/crypto/session.go:108-129 | The 64-bit word decides as an unbounded set: a number passes exactly when positive, unmarked and less than 64 below the highest; then it is marked |
| `ReplayWindow.Window.Rollback` | internal/crypto/session.go:130-134 | Unmarks a number still in the window, changes nothing otherwise, and never lowers the highest |
| `ReplayWindow.Cipher.Open` | internal/crypto/session.go:90-100 | Over every run of opens: a plaintext comes out exactly when the number was never opened, is in the window and authenticates |
| `ReplayWindow.StaysRefused` | internal/crypto/session.go:108-129 | A number refused once is refused after every later run |
| `ReplayWindow.OpenedAtMostOnce` | internal/crypto/session.go:90-129 | No number is opened twice in any run |
| `ReplayWindow.FailedOpenCanBeRetried` | internal/crypto/session.go:94-98 | A failed open leaves the number exactly as acceptable as before; a successful one does not |
| `ReplayWindow.FailedOpenCost` | internal/crypto/session.go:94-134 | What a failed open costs every other number: exactly those 64 or more below it, if it was let through |
| `ReplayWindow.OldestInWindow` | internal/crypto/session.go:124-124 | The number 64 below the highest is refused, the one above it is fresh unless opened |
| `ReplayWindow.FirstOf65IsRefused` | internal/crypto/session.go:124-124 | After number 65 alone, number 1 is refused and number 2 is not |
| `PacketCodec.MarshalBinary` | pkg/protocol/packet.go:44-61 | Filling the buffer field by field gives the wire encoding, or the size error |
| `PacketCodec.ParseWire` | pkg/protocol/packet.go:44-78 | Parsing the encoding of any packet with payload up to 65535 bytes gives it back |
| `PacketCodec.WireParse` | pkg/protocol/packet.go:63-78 | Re-encoding any accepted byte string reproduces it byte for byte |
| `PacketCodec.AcceptsExactlyEncodings` | pkg/protocol/packet.go:63-78 | The parser accepts exactly the encodings of packets |
| `PacketCodec.HeaderDetermines` | pkg/protocol/packet.go:44-61 | The 46 header bytes determine every field and the payload length |
| `PacketCodec.HeaderLayout` | pkg/protocol/packet.go:44-61 | Where each field sits, with the magic bytes and the version |
| `PacketCodec.RefusesInOrder` | pkg/protocol/packet.go:63-78 | Which byte strings are refused and why, in the order of the checks |
| `BigEndian.FirstByteWeighsMost` | pkg/protocol/packet.go:50-58 | Integers are big-endian |
| `Sessions.Route` | internal/routing/router.go:22-36 | A routed packet carries the sender's assigned source and goes to the peer at its destination |
| `Sessions.Server.constructor` | internal/dataplane/server.go:69-71 | Starts with only the server address routed, to the adapter |
| `Sessions.Server.Register` | internal/dataplane/server.go:81-109 | Rejects exactly invalid peers; otherwise replaces the device's session in both maps and the routes, keeping them consistent |
| `Sessions.Server.Remove` | internal/dataplane/server.go:111-121 | Removes the named session from maps and routes, keeping them consistent |
| `Sessions.RunIsConsistent` | internal/dataplane/server.go:81-121 | In every run the two session maps are mutually inverse, the server address routes to the adapter and every other route leads to a live session assigned that address |
| `Sessions.RemoveTakesOneSession` | internal/dataplane/server.go:111-121 | Remove takes out exactly the named session of the named device, or changes nothing |
| `Sessions.LateRemoveChangesNothing` | internal/dataplane/server.go:99-121 | After a session was replaced, the deferred Remove of the old one is a no-op and the new one stays |
| `Sessions.RegisterKeepsRoutesExactlyIfFree` | internal/dataplane/server.go:100-106 | Registration keeps all live sessions routed if and only if no other device's session holds the address |
| `Sessions.RemoveKeepsRoutes` | internal/dataplane/server.go:115-119 | Removal never unroutes another session when all were routed |
| `Sessions.DistinctRunIsExact` | internal/dataplane/server.go:81-121 | If live sessions always have distinct addresses the routes are exactly the live sessions and the adapter |
| `Sessions.SharedAddressLosesItsRoute` | internal/dataplane/server.go:100-119 | With a shared address a live session can end up without a route |
| `StarNetwork.EveryWriteIsAddressedAndUnique` | internal/dataplane/server.go:146-189 | In every run against the adversary each packet written to an adapter is addressed to that adapter, is unchanged from some adapter read, carries that reader's assigned address as source, and no read causes two writes |
| `StarNetwork.HonestPathDelivers` | internal/dataplane/client.go:93-160 | Without interference a packet read at one client is written at the other, for every ciphertext |
| `StarNetwork.HonestPathToServer` | internal/dataplane/server.go:187-246 | Without interference a packet read at a client for the server's address is written to the server's adapter |
| `StarNetwork.HonestPathFromServer` | internal/dataplane/server.go:230-265 | Without interference a packet read at the server's adapter for a routed client heard of is written at that client |
| `StarNetwork.KeepaliveOpensThePath` | internal/dataplane/server.go:174-182 | An arriving keepalive lets the server learn where the client is and writes nothing |
| `StarNetwork.UnreachableIsLost` | internal/routing/router.go:22-43 | A packet that is not routed, or whose receiver has not been heard of, is neither sealed nor written |
| `StarNetwork.ServerIgnores` | internal/dataplane/server.go:157-168 | Datagrams of another type, of an unknown session or with another device's hash leave no trace |
| `StarNetwork.ClientIgnores` | internal/dataplane/client.go:114-123 | The same at a client |
| `StarNetwork.WritesFit` | internal/dataplane/server.go:183-187 | What a receive loop writes has at least 20 bytes and at most the MTU |
| `StarNetwork.OneDatagramSilencesASession` | internal/dataplane/server.go:161-172 | After any run, a connect and one datagram that passes every check before the open: in every continuation that direction of the session yields nothing while fewer than 2^64 - 64 packets are sent |
| `StarNetwork.ToServerKeepsInv` | internal/dataplane/server.go:146-189 | One turn of the server's receive loop keeps genuineness, placement and addressing of every packet |
| `StarNetwork.ToClientKeepsInv` | internal/dataplane/client.go:106-130 | One turn of a client's receive loop keeps them too and writes only packets for its own address |
| `StarNetwork.ForwardKeepsInv` | internal/routing/router.go:22-43 | Routing a packet in hand loses it, writes it to the adapter or seals it once |
| `FlowKeys.PortsReadBack` | internal/routing/traffic.go:271-291 | The addresses of the key of a TCP or UDP packet with any header length, read by a separate parser, and the protocol and ports of its flow are those the packet was built from |
| `FlowKeys.IcmpReadsBack` | internal/routing/traffic.go:292-300 | The same for an ICMP packet, its type and its code |
| `FlowKeys.KeyShows` | internal/routing/traffic.go:271-301 | Addresses and protocol name of any counted packet; ports and ICMP fields exactly of a first fragment long enough |
| `FlowKeys.DottedReadsBack` | internal/routing/traffic.go:280-280 | A separate parser of dotted addresses gives the four octets back, first octet first |
| `FlowKeys.RoutedButUncounted` | internal/routing/traffic.go:271-278 | A packet the router accepts goes uncounted exactly if its header length is below 20 or beyond its end |
| `FlowKeys.LessIsTotal` | internal/routing/traffic.go:182-215 | The comparator is asymmetric and separates any two different keys the code can produce |
| `FlowKeys.LessIsTransitive` | internal/routing/traffic.go:182-215 | The comparator is transitive |
| `FlowKeys.LessIsLexicographic` | internal/routing/traffic.go:182-215 | The comparator is the lexicographic order by source, destination, protocol number, ports and ICMP fields, missing values first |
| `FlowKeys.SortedListIsUnique` | internal/routing/traffic.go:179-215 | Any two sorted lists of the same flows with keys as the code makes them are equal |
| `TrafficMonitor.MonitorRefinesLog` | internal/routing/traffic.go:126-181 | In every run the flows of the last 60 seconds and their total are sums over the accepted observations, with at most 4096 keys |
| `TrafficMonitor.LiveKeysAreRecent` | internal/routing/traffic.go:329-342 | After pruning the live keys are exactly those with an accepted observation in the last minute |
| `TrafficMonitor.DroppedExactlyWhenFull` | internal/routing/traffic.go:137-142 | An observation is dropped exactly when its flow is new to the last minute and 4096 flows are in it |
| `TrafficMonitor.SeenFlowIsNeverDropped` | internal/routing/traffic.go:137-146 | An observation of a flow seen in the last minute is always counted |
| `TrafficMonitor.DeliveredAtMostOnceAndFinal` | internal/routing/traffic.go:222-256 | With observations, prunes and failures interleaved, successful flushes deliver each second at most once and with its final totals |
| `TrafficMonitor.FlushedSecondsAreDelivered` | internal/routing/traffic.go:222-256 | Every second with traffic that some successful flush could see has been delivered |
| `TrafficMonitor.FlushDelivers` | internal/routing/traffic.go:222-256 | After a flush the sink takes, every finished second with traffic in the window has been delivered; one it refuses delivers and marks nothing |
| `TrafficMonitor.EmptyObservationIgnored` | internal/routing/traffic.go:126-129 | Observations without bytes, source or destination change nothing |
| `TrafficMeter.SnapshotShowsTheLog` | internal/routing/traffic.go:149-181 | Flows, 60 points, total (the sum of both) and rate bytes of a snapshot are sums over the accepted observations of their windows |
| `TrafficMeter.SnapshotListIsUnique` | internal/routing/traffic.go:179-215 | In every run of observations of keys read from packets or plain keys, a snapshot has one sorted flow list, whatever the map iteration order |
| `TrafficMeter.Accumulate` | internal/routing/traffic.go:162-168 | One pass over a bucket merges it into the flows and sums it up |
| `TrafficMeter.Meter.Prune` | internal/routing/traffic.go:329-342 | Drops buckets older than a minute with their flushed marks and keeps each key's count equal to the live buckets holding it |
| `TrafficMeter.Meter.Observe` | internal/routing/traffic.go:126-147 | Ignores empty observations, otherwise prunes and counts unless the key is new and the table full |
| `TrafficMeter.Meter.Snapshot` | internal/routing/traffic.go:149-178 | Prunes and sums the window's buckets as the log lemma needs |
| `TrafficMeter.Meter.BeginFlush` | internal/routing/traffic.go:226-241 | Prunes and lists every unflushed finished (second, flow) once, oldest second first |
| `AddressPool.Inc` | internal/storage/store.go:334-341 | The carry loop computes the big-endian successor, wrapping at the top |
| `AddressPool.SuccessorOfAddress` | internal/storage/store.go:334-341 | For an address that is addition of one modulo 2^32 |
| `AddressPool.NextIP` | internal/storage/store.go:299-333 | For every CIDR: the first free address on the walk from the written address, at most 2^20 steps and inside the network, or none exactly when there is none; from prefix 12 on the least free address above the written one + 1 |
| `AddressPool.FindsOne` | internal/storage/store.go:317-332 | The search has one result for each network and used set |
| `AddressPool.FirstInWalk` | internal/storage/store.go:317-332 | For every CIDR and used set: the first free address the search walks over, or none exactly when there is none |
| `AddressPool.LeastExactly` | internal/storage/store.go:317-332 | For every CIDR whose walk does not wrap around: the result is the least free address above the written one + 1, or none with none free, if and only if one of the first 2^20 is free or none is |
| `AddressPool.LeastAssignable` | internal/storage/store.go:317-332 | From prefix 12 on that always holds, whatever address of the network was written |
| `AddressPool.LeastOfNetworkExactly` | internal/storage/store.go:317-332 | From prefix 12 on the result is the least free address above network+1 of the whole network if and only if nothing is free below the address the search starts from |
| `AddressPool.AlignedFindsLeast` | internal/storage/store.go:317-332 | For every aligned network from prefix 12 on: the least unused address above network+1 not ending in 255, and exhaustion exactly when there is none |
| `AddressPool.UnalignedMissesFree` | internal/storage/store.go:317-317 | In 10.90.0.200/24 with .202 to .254 taken the search reports exhaustion although 10.90.0.2 is free |
| `AddressPool.WholeSpaceWraps` | internal/storage/store.go:334-341 | In 255.255.255.254/0 the walk wraps around and hands out 0.0.0.0 |
| `AddressPool.LargeNetworkMissesFree` | internal/storage/store.go:319-332 | In 10.0.0.0/8 with 2^20 addresses taken the search reports exhaustion although 10.16.0.2 is free |
| `AddressPool.BroadcastIsAssignable` | internal/storage/store.go:324-327 | The broadcast address can be handed out exactly when ahead of the search, unused and not ending in 255 |
| `AddressPool.EndsIn255UpTo24` | internal/storage/store.go:324-327 | Up to prefix 24 the broadcast address ends in 255 |
| `AddressPool.BroadcastHandedOut` | internal/storage/store.go:324-327 | In 10.90.0.0/25 the last address handed out is the broadcast address |
| `Enrollment.EnrolledWithinUses` | internal/storage/store.go:272-357 | In every interleaving devices enrolled through a token are at most its uses, which are at most its maximum |
| `Enrollment.UsesNeverDecrease` | internal/storage/store.go:268-297 | Uses never decrease, the maximum never changes, and a revoked or expired token gains none |
| `Enrollment.RevocationEffects` | internal/storage/store.go:268-290 | A revoked token cannot be used; a revoked device keeps its address |
| `Enrollment.AddressesDistinctAndGood` | internal/storage/store.go:299-449 | In every interleaving addresses are pairwise distinct, and inside the network and never the network, server or broadcast address wherever the search can hand out none of those |
| `Enrollment.SafeUpTo24` | internal/storage/store.go:317-327 | That is so for every network of prefix 12 to 24 whose server is at most the written address + 1 |
| `Enrollment.AddressesGoodExactlyIfSafe` | internal/storage/store.go:299-449 | For every written address, prefix and server address: no run enrols a reserved address if and only if the search can hand out none of them |
| `Enrollment.SafeSpelledOut` | internal/storage/store.go:317-327 | From prefix 12 on: exactly if the broadcast address ends in 255 or is not ahead, and the server ends in 255, is not ahead or is outside |
| `Enrollment.ServerAddressEnrolled` | internal/config/config.go:153-160 | With the server at 10.90.0.2 in 10.90.0.0/24 the first device to join gets the server's address |
| `Enrollment.HandedIsEnrolled` | internal/storage/store.go:317-352 | Every address the search can hand out is enrolled by some run of joins |
| `Enrollment.Store.ConsumeToken` | internal/storage/store.go:272-297 | Succeeds exactly on a known, unrevoked, unexpired, unexhausted token and adds one use |
| `Enrollment.Store.JoinDevice` | internal/storage/store.go:342-357 | Adds the device at the address the search finds; exhaustion still costs the token use |
| `Enrollment.Store.SetDeviceVirtualIP` | internal/storage/store.go:417-449 | Succeeds exactly on an allowed, free address for a known device and changes only that address |
| `FlowHistory.History.Trim` | internal/storage/store.go:526-559 | Removes the shortest oldest-first prefix that fits the budget, and nothing when within it |
| `FlowHistory.History.TrimFlowHistory` | internal/storage/store.go:511-524 | Rejects non-positive limits, otherwise trims |
| `FlowHistory.History.InsertFlowHistory` | internal/storage/store.go:479-509 | All records or none; after a non-empty insert the table fits the budget; an empty one changes nothing |
| `FlowHistory.TrimFitsBudget` | internal/storage/store.go:526-559 | A trimmed table is within the budget, and nothing is removed exactly when it was already |
| `FlowHistory.RemovesOldestFirst` | internal/storage/store.go:531-545 | Every removed row is older by (time, id) than every survivor, and survivors are original rows |
| `FlowHistory.RemovesNoMoreThanNeeded` | internal/storage/store.go:526-559 | With the youngest removed row the table would still be over the budget |
| `FlowHistory.NewRowsSpelledOut` | internal/storage/store.go:643-645 | Inserted rows keep the records in order and are charged 96 bytes plus the length of their texts |
| `RateLimiter.Window.Compact` | internal/control/server.go:422-427 | Compacting a slice into its own array equals filtering it |
| `RateLimiter.Window.Request` | internal/control/server.go:417-437 | Admits exactly below 120 recent hits and records the hit |
| `RateLimiter.SpacedAdmissions` | internal/control/server.go:420-434 | Over every run with non-decreasing times the (i+120)-th admission comes at least a minute after the i-th |
| `RateLimiter.RefusedExactlyWhenFull` | internal/control/server.go:428-433 | A request is refused exactly when 120 admitted ones are less than a minute old |

## Left out

- HTTP routing, JSON, web interfaces, tray programs, installers, adapters and platform code: plumbing without a hard property.
- Argon2id, Ed25519, HKDF, ChaCha20-Poly1305 and SHA-256 themselves; the device hash is any function.
- SQLite, migrations and the query text of ListFlowHistory; ports and ICMP fields of a history row are one opaque note.
- Floating-point Mbps values: rates are byte sums over the five-second window.
- FlushHistoryNow: the partial current second at shutdown is not covered by the final-totals results, and a missing history sink is not modelled.
- Command execution across client restarts, reconnect backoff, parseBootstrap, endpoint resolution and the server's session expiry checks on datagrams: an expired session only drops more.
- The invalid-source limiter of the server, and in `StarNetwork` the UDP source check of the client: they only drop datagrams, which the adversary may do anyway.
- RBAC, configuration validation, user management (deleting a user also deletes tokens), connection counters.
- Wall-clock skew, text timestamps below one second, and overflow of byte and packet counters.
- StarNetwork.ToServerKeepsInv: the receive loops, keepalive and readAdapter are value-level steps, so aliasing of session objects is represented by session numbers.
- CommandProtocol.Client.HandleControlCommand: other server activity happens between calls, not within one; `CommandProtocol.Step` interleaves freely.
- Sessions.Route: the peer's Send and the traffic observer are not part of it; `StarNetwork.Forward` continues with Send.
- RateLimiter.Window.Request: one host's slice; the map from hosts to slices is a plain lookup.
