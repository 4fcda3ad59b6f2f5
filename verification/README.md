# The Breakout SDK's CoAP and DTLS stack, verified

A Dafny model of the parts of this IoT client stack that hold the most state:
tinydtls with its record protection, the CoAP codec and its transactions, the
containers both stand on, and the splitting of the modem's byte stream into
lines. `dafny verify dfyconfig.toml` checks all of it.

## The modules

Record protection and keys

- `Bytes`: bytes, XOR, big-endian numbers, writes into buffers.
- `Ccm`: AES-CCM (RFC 3610) over an arbitrary block function; the in-place loops of `ccm.c` against the formulas.
- `Record`: record headers, nonces and additional data (RFC 6655, section 3); sealing and opening.
- `Prf`: HMAC (RFC 2104), P_hash and the PRF (RFC 5246, section 5) over an arbitrary hash.
- `Relabel`: what becomes of a sealed Hello that is relabelled.
- `Standards`: what those formulas say in the terms of RFC 2104, 3610, 5246 and 6655.
- `Replay`: the sliding window over a machine whose shifts are parameters.

The DTLS session

- `HandshakeCodec`: the handshake messages as bytes.
- `Engine`: one side of the PSK handshake, message by message, as functions from a context to a context and a result.
- `Session`: what a record, a queued message or a call of the application does to a session; runs.
- `Endpoint`: the same as a class whose fields the methods update, each method against its function in `Session`.
- `Reorder`, `QueueBlind`, `ArrivalOrder`: what the reorder queue guarantees, up to independence of the arrival order.
- `FirstHandshake`, `Connecting`: what a connected session must have gone through, and what connects it.
- `Acceptance`, `Outcomes`: which messages are taken, and what becomes of a session.
- `WindowRun`, `Overtaking`: the replay windows over whole runs of a session; data that overtakes the Finished.
- `Slots`: the two security parameter slots, their epochs, and the numbers of the records sent.
- `HelloBytes`, `Wire`, `Interop`, `HandshakeRun`: this client against this server, byte by byte, up to both connected.
- `CookieCheck`, `Renegotiation`: when a server makes a peer, and what a renegotiating client meets.
- `Retransmit`: the sorted queue of records to send again.

CoAP, containers, modem

- `CoapOption`, `CoapMessage`, `CoapWire`: the format, its parser and printer, their two round trips, and where each field stands on the wire (RFC 7252, section 3).
- `CoapCodec`: the encode and decode loops over a bounded buffer.
- `CoapClient`, `CoapServer`: the transaction tables (RFC 7252, sections 4.2 and 4.5).
- `CoapClientSteps`, `CoapClientLoss`: what each operation on client transactions does, and which of them are lost.
- `CoapServerAnswers`, `CoapServerAge`: what a request is answered with; how old server transactions are.
- `ModemLines`: the receive buffer.
- `MergeSort`: the bottom-up merge sort of linked lists, over next pointers.
- `UtHash`: the hash table that holds the peers in builds without `DTLS_PEERS_NOHASH`. The platform headers define that (`src/tinydtls/platform-specific/arduino.h:76`, `platform.h:71`), so the Arduino build has a plain list of peers instead.
- `UtHashGrowth`: when that table grows.

The source works by assignment, so each loop or object is a method or class
here, and is proved against a function; the properties of whole runs are lemmas
about these functions.

## Where the code does not do what it is meant to

In each case the model follows the code, and a lemma says exactly when it does
what is intended.

- A record header written without security parameters is two bytes short, since
  only 8 of its 10 bytes behind the type are cleared (`src/tinydtls/dtls.c:469-504`). Only
  the stateless HelloVerifyRequest is sent that way. Its receiver reads all of it two
  bytes too early and takes it for a HelloRequest, so this client does not
  complete a handshake with this server; with a whole header it does
  (`HandshakeRun.CompletesExactlyWithWholeHeader`).
- What is kept for a retransmission holds 16 of the 48 bits of the record
  number (`src/tinydtls/dtls.c:1616`): the number is repeated only if it is 0
  (`Record.RetransmitsNumberOnlyIfZero`).
- The room check of `dtls_prepare_record` leaves the tag out, and its callers
  offer the whole of their buffer (`src/tinydtls/dtls.c:1427`, `1571`, `4162`): the tag
  lies inside the buffer for all lengths but the last eight that pass
  (`Record.TagFitsExactly`).
- The replay window shifts an `int` (`src/tinydtls/dtls.c:3834`, `3842`, `3853`). The window is right up to
  a width exactly if `1 << k` is (`Replay.WidthNeeded`); with 32 bits a number
  can be accepted twice (`Replay.Int32Replays`).
- The window has no bit for number 0. The first record of an epoch can be
  accepted any number of times until another one is, and is refused ever after,
  even if it never came (`Replay.ZeroReachesDecryption`; over whole runs
  `WindowRun.ZeroDroppedExactlyIfOvertaken`). Finished is record 0 of its epoch, and
  its retransmission repeats that number, so a client that meets the server's
  first data before its Finished never connects (`Overtaking.DataMustNotOvertake`).
  All other records may come in any order within 64 of the highest number
  (`WindowRun.DroppedExactlyIfSeen`).
- A key exchange message is accepted in any state while no cipher has been
  chosen (`src/tinydtls/dtls.c:3254-3280`). It leads nowhere: the cipher never becomes the
  known one on that path (`FirstHandshake.RunKeeps`).
- `decrypt_verify` compares neither the explicit nonce nor the length field with
  the header. What it accepts is stated by `Record.OpensExactly`; that is a sealed
  record exactly if both agree (`Record.SealedIfFieldsAgree`), and for fields
  that do not there are packets that open (`Record.OpensDespiteItsFields`).
- A ClientHello that is sealed, as in a renegotiation, is relabelled with the
  older version afterwards. It opens exactly if its tag is the one for the older
  version as well (`Relabel.RelabelledOpens`), which depends on the block function
  (`Renegotiation.DependsOnTheCipher`); otherwise the renegotiating client waits in
  vain (`Renegotiation.RenegotiationStalls`).
- When a cookie cannot be fetched, `dtls_verify_peer` returns the 0 that making
  one returned. So a ClientHello with another version than that of DTLS 1.2
  gets a peer without any cookie; `CookieCheck.PeerMadeExactlyIf` says when a server
  makes one at all.
- `testCodec` promises a round trip for what it decodes; it passes exactly for
  canonical messages of at most 256 bytes (`CoapCodec.TestCodec`).
- Server transactions are inserted while their expiry is still 0, so the list is
  in order of arrival, newest first (`CoapServerAge.OrderedInEveryRun`). A full table
  forgets the newest instead of the oldest (`CoapServerAge.EvictsTheNewest`,
  `OldestOnlyIfAlone`), and an expired transaction stays until all newer ones
  have expired, suppressing its id meanwhile
  (`CoapServerAge.ExpiredLeavesWithTheNewer`, `HandledAgain`).
- An empty CON is answered before duplicates are looked for, and its RST replaces
  the reply stored under that id (`CoapServerAge.DuplicateOnlyRepeats`).
- A message whose id is in flight already cannot be saved, and the failure drops
  the transaction in flight without an event
  (`src/BreakoutSDK/CoAP/CoAPPeer.cpp:418-431`). `CoapClientLoss.LostExactlyUnderItsId`
  says which operations lose which transaction, and
  `CoapClientLoss.SendingTwiceLosesBoth` shows an input.

Two more things are simply followed: `NON_LIFETIME` is a sum without parentheses
(`src/BreakoutSDK/CoAP/CoAPPeer.h:62`), of which only the second term is multiplied
by 1000, so that it comes to 30052 ms; and the `max_retransmit` and
`max_transmit_span` arguments of a reliable send are not used.

## Model

| member | source | states |
|---|---|---|
| `HandshakeRun.CompletesExactlyWithWholeHeader` | `src/tinydtls/dtls.c:469-504` | A client and a server that agree on hint, identity and key, over a channel that loses and reorders nothing, reach a state in which both are connected if and only if the HelloVerifyRequest is written with a whole record header. The code writes two bytes less there |
| `HandshakeRun.AllSteps` | `src/tinydtls/dtls.c:3195-3504` | With whole headers, after 8 records and the server's flight both sides are connected, under equal key blocks in epoch 1, with the exact records, sequence numbers, message counters and hashed messages of every stage; at each step records are on the way in one direction only |
| `HandshakeRun.Stalls` | `src/tinydtls/dtls.c:469-504` | With the header the code writes, for every number of deliveries the client still waits as after its first ClientHello and the server keeps no peer |
| `HandshakeRun.ShiftedReads` | `src/tinydtls/dtls.c:469-504` | What a receiver finds in the short HelloVerifyRequest is a HelloRequest with message number 0 |
| `HandshakeRun.FirstSteps` | `src/tinydtls/dtls.c:1702-1771` | The first ClientHello makes the server send a HelloVerifyRequest and nothing else: it keeps no state |
| `HandshakeRun.CookieSteps` | `src/tinydtls/dtls.c:3195-3211` | The client repeats its ClientHello with the cookie and starts hashing with it; the server then answers with its flight; neither hashes the first ClientHello or the HelloVerifyRequest |
| `HandshakeRun.FlightSteps` | `src/tinydtls/dtls.c:3213-3296` | ServerHello, the optional hint and ServerHelloDone bring the client, one by one, to waiting for ChangeCipherSpec with its last flight sent |
| `HandshakeRun.ClientFlightSteps` | `src/tinydtls/dtls.c:3312-3377` | ClientKeyExchange, ChangeCipherSpec and Finished connect the server |
| `HandshakeRun.ServerFlightSteps` | `src/tinydtls/dtls.c:3312-3350` | ChangeCipherSpec and Finished of the server connect the client |
| `Interop.WorldExists` | `src/tinydtls/dtls.c:725-846` | For every hint, identity and key that fit, any hash, block function and randoms, there is a client and a server that agree |
| `Interop.Connects` | `src/tinydtls/dtls.c:4089-4118` | dtls_connect on an empty context sends exactly the ClientHello with empty cookie as record 0 and leaves message counters 1 and 0 |
| `Interop.KeysIs` | `src/tinydtls/dtls.c:725-846` | Either side computes the same master secret and key block from the pre-shared key and both randoms |
| `Interop.FlightSent` | `src/tinydtls/dtls.c:2239-2320` | The server's flight is ServerHello, the key exchange exactly if there is a hint, ServerHelloDone, all hashed in this order |
| `Interop.LastFlightSent` | `src/tinydtls/dtls.c:2987-3058` | The client sends ClientKeyExchange, ChangeCipherSpec under the old parameters and Finished as record 0 of the new ones |
| `Interop.FinishedIs` | `src/tinydtls/dtls.c:2462-2491` | Finished carries the PRF over the messages hashed so far and is itself hashed afterwards |
| `HelloBytes.SameCookie` | `src/tinydtls/dtls.c:322-405` | The cookie is made from everything in the ClientHello but the cookie, so both ClientHellos give the same one, and the one sent is found again |
| `CookieCheck.PeerMadeExactlyIf` | `src/tinydtls/dtls.c:1702-1771` | A server without a peer makes one if and only if a cookie can be made and was sent, or the version field is not that of DTLS 1.2, or sending the HelloVerifyRequest returned 0 |
| `CookieCheck.FetchedUnlessOtherVersion` | `src/tinydtls/dtls.c:322-345` | Where a cookie can be made, fetching it fails if and only if the version field is another |
| `CookieCheck.RequestedExactlyIf` | `src/tinydtls/dtls.c:1702-1771` | A HelloVerifyRequest with the right cookie is sent if and only if one can be made, was looked for and is not the one sent; from a connected session under its parameters and message number, otherwise without any |
| `CookieCheck.PeerReplacedExactlyIf` | `src/tinydtls/dtls.c:3431-3480` | A ClientHello in the clear replaces a connected peer under the same condition, and otherwise leaves it as it is |
| `CookieCheck.ReplacedByRecord` | `src/tinydtls/dtls.c:640-655` | The same for a record, once nothing is left of epoch 0 |
| `CookieCheck.AnsweredAgainExactlyIf` | `src/tinydtls/dtls.c:3395-3504` | A ClientHello that a connected server reads is answered by the same peer in the same epoch |
| `CookieCheck.CookieIs` | `src/tinydtls/dtls.c:347-405` | The cookie is an HMAC under the server's secret over the address and all of the ClientHello but its cookie |
| `CookieCheck.CookieBinds` | `src/tinydtls/dtls.c:347-405` | What it is taken over tells apart any two addresses of one length and any two ClientHellos that differ in more than the cookie |
| `CookieCheck.OtherVersionGetsPeer` | `src/tinydtls/dtls.c:1723-1730` | A ClientHello under another version gets a peer with no cookie exchanged |
| `HelloBytes.HelloAccepted` | `src/tinydtls/dtls.c:1047-1151` | The server accepts the client's own ClientHello and takes random and cipher from it |
| `HelloBytes.ServerHelloAccepted` | `src/tinydtls/dtls.c:2645-2713` | The client accepts the server's own ServerHello and takes random and cipher from it |
| `HelloBytes.ClientHelloReads` | `src/tinydtls/dtls.c:2493-2642` | Every field of a ClientHello is read back where the parser looks for it |
| `HelloBytes.HelloVerifyReads` | `src/tinydtls/dtls.c:2715-2735` | The cookie of a HelloVerifyRequest is read back |
| `HandshakeCodec.MessageReads` | `src/tinydtls/dtls.c:512-543` | Type, number, length and body of a handshake message are read back |
| `HandshakeCodec.SentWhole` | `src/tinydtls/dtls.c:1480-1500` | Every message is one fragment that begins at 0 and has the length of the message, which the header states twice |
| `Acceptance.UnexpectedRefused` | `src/tinydtls/dtls.c:3195-3531` | Which message is looked at in which state; any other changes nothing and is answered with unexpected_message, a HelloRequest with nothing |
| `Acceptance.HelloVerifyTakenExactly` | `src/tinydtls/dtls.c:2715-2735` | A HelloVerifyRequest is taken if and only if it is awaited and whole, its cookie is not too long and the answer goes out; the answer is a ClientHello with that cookie and the old random |
| `Acceptance.ServerHelloTakenExactly` | `src/tinydtls/dtls.c:2645-2713` | The exact condition on the bytes under which a ServerHello is taken; the compression method may be missing |
| `Acceptance.HintTakenExactly` | `src/tinydtls/dtls.c:2867-2901` | A PSK hint is taken if and only if it is awaited and its length field is right and small enough; it is stored and hashed |
| `Acceptance.IdentityTakenExactly` | `src/tinydtls/dtls.c:1153-1220` | Likewise the identity in a ClientKeyExchange |
| `Acceptance.HelloDoneTakenExactly` | `src/tinydtls/dtls.c:2987-3058` | A ServerHelloDone is taken if and only if it is awaited, no certificate was asked for, there is a key that fits, and the three records of the answer go out |
| `Acceptance.CertificateStops` | `src/tinydtls/dtls.c:2906-3010` | A client that was asked for a certificate sends nothing more |
| `Acceptance.KeysMadeExactly` | `src/tinydtls/dtls.c:725-846` | Keys are made if and only if the cipher is known and the key fits; the next epoch is taken in any case |
| `Acceptance.ParametersTakenExactly` | `src/tinydtls/dtls.c:1047-1151` | The exact condition on the bytes under which the parameters of a ClientHello are taken |
| `Acceptance.ParametersRefusedWith` | `src/tinydtls/dtls.c:1145-1150` | Otherwise it is a warning for a connected peer and fatal for any other |
| `Acceptance.CipherFoundExactly` | `src/tinydtls/dtls.c:1090-1096` | The loop over the cipher suites finds the known one if and only if it is among the entries, or, for a list of odd length, anywhere behind at an even distance |
| `Acceptance.CompressionFoundExactly` | `src/tinydtls/dtls.c:1124-1132` | The loop over the compression methods finds null compression if and only if it is offered |
| `Acceptance.HintFails` | `src/tinydtls/dtls.c:2285-2310` | Without a hint to give, the flight ends with the ServerHello and the code of the callback |
| `Wire.DatagramOpens` | `src/tinydtls/dtls.c:1558-1649` | A record that dtls_send writes is taken by is_record for one record of exactly its length, with the epoch and number it was sent under, and opens on the other side to its payload; with a Hello's older version only in the clear |
| `Wire.DatagramIsRecord` | `src/tinydtls/dtls.c:442-460` | is_record takes everything that is sent for one record of its whole length, sealed or not, relabelled or not |
| `Wire.ReceivesNew` | `src/tinydtls/dtls.c:3822-3870` | A record with a new number under live parameters is handed on and only its number is remembered |
| `Outcomes.PeerGoesExactlyIf` | `src/tinydtls/dtls.c:3786-3985` | An arriving record makes the peer go away, with an error, if and only if it is an alert that is fatal or a close notification, a ChangeCipherSpec that was waited for and cannot be taken, or, before the session is connected, one that cannot be read |
| `Outcomes.AlertExactly` | `src/tinydtls/dtls.c:3755-3783` | Level and description of the alert for every error code, under slot 0 and its next number, after which the session is closing; for all other codes nothing |
| `Outcomes.ErrorsName` | `src/tinydtls/alert.h:58-72` | Each error the engine raises goes out with just its description, fatal or as a warning |
| `Outcomes.GoneWithAlert` | `src/tinydtls/dtls.c:3866-3885` | A record that cannot be read before the session is connected is answered with decrypt_error |
| `Outcomes.BadCcsAnswered` | `src/tinydtls/dtls.c:3898-3915` | A wrong ChangeCipherSpec is answered with decode_error alone |
| `Outcomes.ClosedBefore` | `src/tinydtls/dtls.c:1674-1684` | A peer that is not closing is told so before it goes |
| `Outcomes.CcsExactly` | `src/tinydtls/dtls.c:3653-3686` | A ChangeCipherSpec that was waited for makes the peer wait for Finished, a server with new keys; any other is ignored |
| `Outcomes.NotHandled` | `src/tinydtls/dtls.c:3543-3625` | Which handshake messages are refused, ignored or queued instead of handled |
| `Outcomes.HandledUnderItsEpoch` | `src/tinydtls/dtls.c:3929-3971` | A handshake record under the expected epoch is handled, and a failure goes out as its alert |
| `Outcomes.IgnoredUnderAnother` | `src/tinydtls/dtls.c:3929-3971` | Under another epoch it is ignored, unless a connected peer begins anew in the clear |
| `Outcomes.AlertAnswered` | `src/tinydtls/dtls.c:3692-3753` | A close notification is answered by one, except while closing; other alerts are not answered |
| `Outcomes.AskedBeginsAnew` | `src/tinydtls/dtls.c:3506-3530` | A HelloRequest at a connected peer is answered with a ClientHello numbered 0 without a cookie |
| `Outcomes.ClosesExactly` | `src/tinydtls/dtls.c:1660-1672` | dtls_close sends a close notification, and the session is closing |
| `Outcomes.WritesExactly` | `src/tinydtls/dtls.c:297-320` | dtls_write sends data if and only if the session is connected |
| `Outcomes.ServerAsks` | `src/tinydtls/dtls.c:3137-3171` | A server that renegotiates sends a HelloRequest numbered 0 |
| `Outcomes.ClientAsks` | `src/tinydtls/dtls.c:3137-3171` | A client that renegotiates sends a ClientHello numbered 0 without a cookie, and stays connected exactly if sending it fails |
| `Outcomes.DataHandedOver` | `src/tinydtls/dtls.c:3972-3981` | Application data changes nothing but what the session remembers of the record, and is an error where there is no peer |
| `FirstHandshake.ConnectedAfterHandshake` | `src/tinydtls/dtls.c:3173-3541` | In every run, whatever arrives and whatever the application does, a connected client has accepted, before anything else, HelloVerifyRequests, one ServerHello, only key exchanges, ServerHelloDone, ChangeCipherSpec and a checked Finished in this order; a server likewise ClientHello, ClientKeyExchange, ChangeCipherSpec and Finished |
| `FirstHandshake.ConnectedByFinished` | `src/tinydtls/dtls.c:3312-3350` | One message connects a peer, in either role, if and only if it is an awaited Finished whose data is that of the other side over the messages hashed so far and, on a server, the answer goes out; a Finished with other data changes nothing and ends in handshake_failure |
| `Connecting.ConnectedByFinishedInEveryRun` | `src/tinydtls/dtls.c:3312-3350` | In every run, each time a session becomes connected, a handshake record was read while the peer waited for Finished, and its message, or one that waited in the reorder queue, is a Finished that matches what was hashed before it arrived |
| `Connecting.ConnectedByArrival` | `src/tinydtls/dtls.c:3786-3985` | The same for any one arrival or call of the application |
| `Outcomes.MismatchAlerted` | `src/tinydtls/dtls.c:1253-1305` | A Finished that does not match, in either role, makes the session send a fatal handshake_failure and close |
| `FirstHandshake.RunKeeps` | `src/tinydtls/dtls.c:3254-3280` | The invariant of every run, with the key exchange that is accepted in any state while no cipher is chosen: it leads to a failing key exchange, never past it |
| `FirstHandshake.RecordKeeps` | `src/tinydtls/dtls.c:3786-3985` | One arriving datagram keeps that invariant, or closes the session |
| `FirstHandshake.ClientPhases` | `src/tinydtls/dtls.c:3195-3350` | What the phase Complete means for a client, spelled out over the list of accepted messages |
| `FirstHandshake.ServerPhases` | `src/tinydtls/dtls.c:3356-3504` | What the phase Complete means for a server |
| `Reorder.TakenInOrder` | `src/tinydtls/dtls.c:3578-3648` | For every sequence of arrivals, with duplicates and gaps, until the handshake is over, the messages handed to the handler have consecutive numbers; the queue holds distinct numbers above the expected one; nothing that could be handled is left in it |
| `Reorder.ArriveTakes` | `src/tinydtls/dtls.c:3543-3648` | The same for one arrival |
| `Reorder.DrainTakes` | `src/tinydtls/dtls.c:3626-3648` | The loop over the queue handles consecutive numbers and ends with none left that could be handled |
| `Reorder.HandleMessageCounts` | `src/tinydtls/dtls.c:3520-3541` | Handling a message advances the expected number by one or leaves it, and leaves the queue alone, unless the handshake parameters go away |
| `Reorder.AfterTheEnd` | `src/tinydtls/dtls.c:3548-3576` | Without handshake parameters an arrival leaves the session as it is unless it has a whole header and is a ClientHello or a HelloRequest, of whatever number |
| `Reorder.HelloRequestBeginsAnew` | `src/tinydtls/dtls.c:3506-3530` | At a connected peer a HelloRequest of any number begins a new handshake |
| `Reorder.NothingMore` | `src/tinydtls/dtls.c:3543-3648` | Without these two, the arrivals after the end of the handshake change nothing, so that what was taken up to it is all |
| `ArrivalOrder.OrderIsIrrelevant` | `src/tinydtls/dtls.c:3543-3648` | Messages that arrive in any order, each any number of times, leave the session exactly as the same messages handled one by one in the order of their numbers |
| `ArrivalOrder.OrderIsIrrelevantThroughout` | `src/tinydtls/dtls.c:3543-3648` | The same without a stop at the end of the handshake, if nothing that arrives can begin a new one |
| `ArrivalOrder.DrainCatchesUp` | `src/tinydtls/dtls.c:3626-3648` | The loop handles what has arrived up to the first message that is missing |
| `QueueBlind.HandleMessageBlind` | `src/tinydtls/dtls.c:3173-3541` | No handler looks at the reorder queue: with another queue the result is the same |
| `Slots.SlotsInEveryRun` | `src/tinydtls/dtls.c:3041-3054` | In every run, until the epoch counter wraps, slot 0 holds parameters, two live slots have epochs that differ by one, and the (epoch, number) pairs of records sent strictly increase |
| `Slots.LookupIsUnambiguous` | `src/tinydtls/peer.h:60-70` | Looking up an epoch finds a slot if and only if exactly one of them has it |
| `Slots.ActSound` | `src/tinydtls/dtls.c:3786-3985` | Any one arrival or call of the application keeps the two slots and the numbers sent in order |
| `Slots.KeysNext` | `src/tinydtls/peer.h:76-87` | New parameters take the other slot with the next epoch and leave slot 0 alone |
| `Slots.SwitchNext` | `src/tinydtls/peer.h:101-107` | Switching to the next epoch keeps the slots in order |
| `Slots.FreeOtherSound` | `src/tinydtls/peer.h:89-99` | Freeing the other slot keeps slot 0, and spares parameters that are still to be used |
| `WindowRun.DroppedExactlyIfSeen` | `src/tinydtls/dtls.c:3815-3870` | After every run of the session, a record that comes under an epoch with parameters and a number other than 0 is dropped, without a change of the session, if and only if that number was read before under these parameters or lies more than 64 below the highest one |
| `WindowRun.ZeroDroppedExactlyIfOvertaken` | `src/tinydtls/dtls.c:3815-3870` | A record with number 0 is dropped if and only if another number was read before |
| `WindowRun.NeverReadTwice` | `src/tinydtls/dtls.c:3815-3870` | In every run, as long as the parameters of an epoch live, no number but 0 is read twice under them |
| `WindowRun.SeenMeansRead` | `src/tinydtls/dtls.c:3815-3870` | The numbers kept for a window are exactly those that were read since its parameters were made |
| `WindowRun.WindowInEveryRun` | `src/tinydtls/dtls.c:3815-3870` | In every run the bits of every window say which recent numbers were read since its parameters were made |
| `WindowRun.OnlyRecordsMove` | `src/tinydtls/dtls.c:3786-3985` | No action changes a window, except that a record of its epoch moves it on; afterwards there may be no parameters for the epoch, or new ones |
| `Overtaking.DataMustNotOvertake` | `src/tinydtls/dtls.c:3822-3858` | After the whole handshake up to the server being connected: if the first data it writes arrives between its ChangeCipherSpec and its Finished, the client never connects, however often that Finished arrives; in order, it does |
| `Endpoint.Endpoint.HandleMessageRecord` | `src/tinydtls/dtls.c:3786-3985` | The statements of dtls_handle_message for one record compute the step function about which the run theorems speak: state and result |
| `Endpoint.Endpoint.ReceiveRecord` | `src/tinydtls/dtls.c:3822-3870` | The window around decrypt_verify, as statements, against its function |
| `Endpoint.Endpoint.HandshakeRecord` | `src/tinydtls/dtls.c:3929-3971` | The handshake case: epoch check, handler and alert |
| `Endpoint.Endpoint.Subprotocol` | `src/tinydtls/dtls.c:3898-3985` | The switch over the content type |
| `Endpoint.Endpoint.Handshake` | `src/tinydtls/dtls.c:3543-3648` | handle_handshake as statements against its function |
| `Endpoint.Endpoint.DrainQueue` | `src/tinydtls/dtls.c:3626-3648` | The loop over the reorder queue, which ends because the queue gets shorter |
| `Endpoint.Endpoint.HandleQueued` | `src/tinydtls/dtls.c:3627-3646` | One round of it: the queued message that is next leaves the queue and is handled |
| `Endpoint.Endpoint.Ccs` | `src/tinydtls/dtls.c:3653-3686` | handle_ccs as statements |
| `Endpoint.Endpoint.KeyBlock` | `src/tinydtls/dtls.c:725-846` | calculate_key_block as statements: the next slot is taken before it is known whether there is a key |
| `Endpoint.Endpoint.SendRecord` | `src/tinydtls/dtls.c:267-277` | dtls_send: one number of slot 0 is used up for one record |
| `Endpoint.Endpoint.AlertReceived` | `src/tinydtls/dtls.c:3692-3753` | handle_alert as statements |
| `Endpoint.Endpoint.AlertError` | `src/tinydtls/dtls.c:3755-3783` | dtls_alert_send_from_err: which alert follows which error, and that the session closes |
| `Endpoint.Endpoint.DestroyPeer` | `src/tinydtls/dtls.c:1674-1684` | dtls_destroy_peer |
| `Endpoint.Endpoint.Next` | `src/tinydtls/peer.h:76-87` | dtls_security_params_next |
| `Endpoint.Endpoint.FreeOtherParams` | `src/tinydtls/peer.h:89-99` | dtls_security_params_free_other |
| `Endpoint.Endpoint.Switch` | `src/tinydtls/peer.h:101-107` | dtls_security_params_switch |
| `Endpoint.Endpoint.Message` | `src/tinydtls/dtls.c:3173-3541` | handle_handshake_msg as statements: the switch, the messages that are not counted, the counter |
| `Endpoint.Endpoint.MessageOfType` | `src/tinydtls/dtls.c:3198-3535` | Each message of its type, except Finished, to its case |
| `Endpoint.Endpoint.HelloReceived` | `src/tinydtls/dtls.c:3395-3504` | The ClientHello case: cookie, a new peer or the old one, parameters, the answer |
| `Endpoint.Endpoint.Verify` | `src/tinydtls/dtls.c:1702-1771` | dtls_verify_peer as statements, with what it returns where no cookie can be fetched |
| `Endpoint.Endpoint.Update` | `src/tinydtls/dtls.c:1047-1151` | dtls_update_parameters as statements, with the cipher that a failure leaves behind |
| `Endpoint.ScanCiphers` | `src/tinydtls/dtls.c:1090-1096` | The loop over the cipher suites ends, also for a list of odd length, and finds a known one if there is one |
| `Endpoint.ScanCompression` | `src/tinydtls/dtls.c:1124-1132` | The loop over the compression methods |
| `Endpoint.Endpoint.SendHelloMessages` | `src/tinydtls/dtls.c:2239-2320` | dtls_send_server_hello_msgs as statements |
| `Endpoint.Endpoint.ReadServerHello` | `src/tinydtls/dtls.c:2645-2713` | check_server_hello as statements, with what it has stored when it fails |
| `Endpoint.Endpoint.KeyExchangeReceived` | `src/tinydtls/dtls.c:3254-3280` | The ServerKeyExchange case, whose checks depend on the cipher chosen so far |
| `Endpoint.Endpoint.ReadHint` | `src/tinydtls/dtls.c:2867-2901` | check_server_key_exchange_psk as statements |
| `Endpoint.Endpoint.AnswerHelloDone` | `src/tinydtls/dtls.c:2987-3058` | check_server_hellodone as statements: key exchange, keys, ChangeCipherSpec, switch, Finished in this order |
| `Endpoint.Endpoint.FinishedReceived` | `src/tinydtls/dtls.c:3312-3350` | The Finished case on either side |
| `Endpoint.Endpoint.ClientKeyReceived` | `src/tinydtls/dtls.c:3356-3377` | The ClientKeyExchange case with check_client_keyexchange |
| `Endpoint.Endpoint.HelloRequestReceived` | `src/tinydtls/dtls.c:3506-3530` | The HelloRequest case |
| `Endpoint.Endpoint.SendHello` | `src/tinydtls/dtls.c:2493-2642` | dtls_send_client_hello: a new random only without a cookie, and the hash begins with the cookie |
| `Endpoint.Endpoint.SendMessage` | `src/tinydtls/dtls.c:1474-1510` | dtls_send_handshake_msg_hash: one message number for one message, hashed if asked for |
| `Endpoint.Endpoint.ConnectPeer` | `src/tinydtls/dtls.c:4088-4124` | dtls_connect_peer for a new peer |
| `Endpoint.Endpoint.RenegotiatePeer` | `src/tinydtls/dtls.c:3137-3171` | dtls_renegotiate |
| `Endpoint.Endpoint.WriteData` | `src/tinydtls/dtls.c:297-320` | dtls_write: connects where there is no peer, and sends nothing before the session is connected |
| `Endpoint.Search` | `src/tinydtls/dtls.c:3592-3600` | The first queued message with a number, or none |
| `Replay.RunInvariant` | `src/tinydtls/dtls.c:3822-3858` | In every run in which no accepted number makes the window shift by more than the width, bit i says exactly whether number cseq - 1 - i was accepted |
| `Replay.NoReplay` | `src/tinydtls/dtls.c:3822-3858` | No number but 0 is accepted twice |
| `Replay.ZeroReachesDecryption` | `src/tinydtls/dtls.c:3822-3858` | Number 0 reaches decryption if and only if no other number has been accepted: any number of times before that, and never afterwards, even if it never came |
| `Replay.TwiceOnlyIfZero` | `src/tinydtls/dtls.c:3822-3858` | What is accepted twice is number 0, and nothing else was accepted before |
| `Replay.ZeroTwice` | `src/tinydtls/dtls.c:3823-3829` | Number 0 twice is accepted twice |
| `Replay.ZeroOvertaken` | `src/tinydtls/dtls.c:3850-3857` | Number 0 behind number 1 is taken for a duplicate though it never came |
| `Replay.UnseenReachesDecryption` | `src/tinydtls/dtls.c:3822-3858` | Every unseen number at most 64 below the top reaches decryption |
| `Replay.StepKeeps` | `src/tinydtls/dtls.c:3822-3858` | One packet: a non-zero number reaches decryption if and only if it is unseen and at most 64 below the top, and the bits keep their meaning |
| `Replay.WidthNeeded` | `src/tinydtls/dtls.c:3834-3853` | The bits keep their meaning up to a width if and only if 1 << k sets exactly bit k below it |
| `Replay.Int32Replays` | `src/tinydtls/dtls.c:3834-3853` | With a 32-bit int the width is 31, and beyond it a number is accepted twice |
| `Replay.Window.Receive` | `src/tinydtls/dtls.c:3822-3858` | The statements around decryption against verdict and next state |
| `Record.SealedOpens` | `src/tinydtls/dtls.c:1364-1471` | For every block function, key block, role, epoch, number and payload that fits, the sealed record is one record, its header reads back and the other role opens it to the payload |
| `Record.OpensExactly` | `src/tinydtls/dtls.c:3060-3127` | decrypt_verify accepts a packet if and only if its body is the encryption under the explicit nonce it carries and the rest of its header, whatever number and length that header states |
| `Record.SealedIfFieldsAgree` | `src/tinydtls/dtls.c:3060-3127` | What it accepts is a record the other role seals if and only if nonce and length field agree with the header and the length |
| `Record.OpensDespiteItsFields` | `src/tinydtls/dtls.c:3060-3127` | For every nonce, number and length field there is a packet that opens; it is a sealed record if and only if they agree |
| `Record.OpensOnlySealed` | `src/tinydtls/dtls.c:3060-3127` | Where nonce and length field agree, exactly the sealed records are accepted |
| `Record.PrepareRecord` | `src/tinydtls/dtls.c:1331-1471` | dtls_prepare_record in the caller's buffer: fails exactly when the fragments do not fit its check, takes a number for fresh records only, and leaves the header and the concatenated fragments, sealed or not |
| `Record.TagFitsExactly` | `src/tinydtls/dtls.c:1424-1435` | Offered the whole buffer, the check lets a record through whose tag lies behind the buffer if and only if the payload ends within its last eight bytes; there are such payloads for every buffer |
| `Record.DecryptVerify` | `src/tinydtls/dtls.c:3060-3127` | decrypt_verify in place: the cleartext and where it starts, or a rejection |
| `Record.HeaderReadsBack` | `src/tinydtls/dtls.c:469-504` | Type, version, epoch, number and length read back from a header |
| `Record.HeaderWritesBack` | `src/tinydtls/dtls.c:3060-3127` | Every header is the writing of what is read from it |
| `Record.RecordTakenExactly` | `src/tinydtls/dtls.c:442-460` | Which datagrams begin with a record, byte by byte: a type, one of the two versions and no more payload than there is; and how long that record is |
| `Record.RetransmitsNumberOnlyIfZero` | `src/tinydtls/dtls.c:1606-1624` | A retransmission repeats the record number if and only if it is 0, because 16 of its 48 bits are kept |
| `Record.RetransmittedHeader` | `src/tinydtls/dtls.c:469-504` | The header chosen for a retransmission is that of the record in type, version and epoch, with the upper 16 bits of its number as number |
| `Record.RelabelledRecord` | `src/tinydtls/dtls.c:1590-1596` | A Hello relabelled with the older version opens as before in the clear; a sealed one is its own body behind the header for the older version |
| `Standards.KeyBlockParts` | `src/tinydtls/crypto.h:147-180` | Client key, server key, client salt and server salt have 16, 16, 4 and 4 bytes and are the key block in this order |
| `Standards.SealedUnderOwnKey` | `src/tinydtls/dtls.c:1364-1471` | A sealed record, by the bytes of the record and of the key block: whose 16 bytes are the key, what the nonce is made of and what the additional data |
| `Standards.NonceNeverReused` | `src/tinydtls/dtls.c:1364-1471` | In every run no two records of a peer are sent under one nonce, until epoch or number wrap |
| `Standards.AdditionalDataInjective` | `src/tinydtls/dtls.c:1425-1460` | Additional data tells apart type, version, epoch, number and length |
| `Relabel.RelabelledOpens` | `src/tinydtls/dtls.c:1590-1596` | A relabelled sealed Hello opens, to its payload, if and only if its tag is also the tag for the older version; otherwise it is rejected |
| `Relabel.SpreadRejects` | `src/tinydtls/dtls.c:1590-1596` | There is a block function under which none ever opens |
| `Relabel.FlatAccepts` | `src/tinydtls/dtls.c:1590-1596` | And one, under which nothing is authenticated, where all do |
| `Renegotiation.RenegotiationStalls` | `src/tinydtls/dtls.c:3137-3170` | After a whole handshake the client renegotiates: unless the tag of its ClientHello fits the older version too, the server stays as it was and, however many records are delivered, the client stays unconnected |
| `Renegotiation.ReadExactlyIfTagsFit` | `src/tinydtls/dtls.c:3822-3870` | A sealed Hello with a new number is read by its receiver if and only if the tags are equal; otherwise the receiver keeps its state |
| `Renegotiation.RefusedUnlessTagsFit` | `src/tinydtls/dtls.c:3857-3876` | Then a connected receiver reports an error and changes nothing |
| `Standards.MacBlockIsCbcMac` | `src/tinydtls/ccm.c:75-165` | What the tag is made of is the CBC-MAC of one string of blocks |
| `Standards.MacInputInjective` | `src/tinydtls/ccm.c:75-165` | That string is another for every other nonce, additional data or message |
| `Standards.CounterBlocksApart` | `src/tinydtls/ccm.c:61-74` | Counter blocks differ from each other and from every first block |
| `Standards.TagByte` | `src/tinydtls/ccm.c:167-230` | The tag is the beginning of that CBC-MAC masked with the block of counter 0 |
| `Standards.CiphertextByte` | `src/tinydtls/ccm.c:120-165` | The message is masked with the blocks from counter 1 on |
| `Standards.PacketVectorOne` | `src/tinydtls/ccm.c:33-74` | First block and first counter block of packet vector 1 of RFC 3610 |
| `Ccm.EncryptMessage` | `src/tinydtls/ccm.c:167-229` | dtls_ccm_encrypt_message in place writes the encryption of RFC 3610, sections 2.2 to 2.4, for every block function |
| `Ccm.DecryptMessage` | `src/tinydtls/ccm.c:231-303` | dtls_ccm_decrypt_message accepts a buffer if and only if it is the encryption of what it recovers, and leaves that in the buffer |
| `Ccm.TagDecides` | `src/tinydtls/ccm.c:291-303` | The comparison of the unmasked tag holds if and only if the whole buffer is an encryption |
| `Ccm.DecryptsWhatWasEncrypted` | `src/tinydtls/ccm.c:231-303` | What was encrypted is recovered |
| `Ccm.CryptInverts` | `src/tinydtls/ccm.c:140-151` | Counter mode undoes itself |
| `Ccm.SetCounter` | `src/tinydtls/ccm.c:33-39` | SET_COUNTER writes the counter modulo 256^L, big endian, over the last L bytes |
| `Ccm.AddAuthData` | `src/tinydtls/ccm.c:75-138` | add_auth_data leaves the CBC-MAC over B_0 and the length-prefixed, padded additional data |
| `Ccm.FirstBlock` | `src/tinydtls/ccm.c:41-59` | block0 writes B_0 of section 2.2 |
| `Ccm.CounterBlock` | `src/tinydtls/ccm.c:140-151` | encrypt XORs a part of the message with S_i and touches nothing else |
| `Ccm.CheckTag` | `src/tinydtls/ccm.c:291-303` | The tag check of decryption against the definition of encryption |
| `Ccm.Equals` | `src/tinydtls/global.h:132-139` | equals compares every byte |
| `Standards.HmacIs` | `src/tinydtls/hmac.c:85-153` | HMAC with both pads written out |
| `Standards.PHashByte` | `src/tinydtls/crypto.c:241-325` | Each byte of P_hash by the iteration it lies in |
| `Standards.KeysAre` | `src/tinydtls/dtls.c:790-846` | Which secret, which label and which randoms in which order make master secret and key block |
| `Standards.VerifyDataIs` | `src/tinydtls/dtls.c:2462-2491` | What a Finished holds for either sender |
| `Standards.LabelsAre` | `src/tinydtls/dtls.c:154-158` | The labels in ASCII |
| `Prf.PHashInto` | `src/tinydtls/crypto.c:241-308` | dtls_p_hash fills its buffer with exactly that many bytes of P_hash of RFC 5246, section 5 |
| `Prf.PHashPrefix` | `src/tinydtls/crypto.c:241-308` | A shorter output is a prefix of a longer one |
| `Prf.HmacContext.Init` | `src/tinydtls/hmac.c:103-128` | dtls_hmac_init starts the hash of the inner pad |
| `Prf.HmacContext.Update` | `src/tinydtls/hmac.c:85-90` | Chunks may be cut anywhere: the text is their concatenation |
| `Prf.HmacContext.Finalize` | `src/tinydtls/hmac.c:136-153` | The digest is HMAC of RFC 2104, section 2, for an arbitrary hash |
| `Prf.PadRewrite` | `src/tinydtls/hmac.c:136-153` | Rewriting the inner pad with 0x6A gives the outer pad |
| `Prf.PskPreMasterSecret` | `src/tinydtls/crypto.c:382-404` | dtls_psk_pre_master_secret writes the premaster secret or fails without a trace |
| `Prf.PreMasterInjective` | `src/tinydtls/crypto.c:382-404` | Different keys have different premaster secrets |
| `Retransmit.CheckHandlesDue` | `src/tinydtls/dtls.c:4221-4236` | The timer handles each node due at its start exactly once and no other, leaves a sorted queue with nothing due, and reports the least time or 0 |
| `Retransmit.RetransmissionsInEveryRun` | `src/tinydtls/dtls.c:4154-4236` | In every run with a monotone clock no record is sent again more than four times, always as what was kept when it was queued, and one that was not stopped is given up only after four, at least 155000 ticks after it was queued; each waits 5000 ticks, doubled by every repetition before it, from its last sending |
| `Retransmit.InsertSorted` | `src/tinydtls/netq.c:99-120` | Inserting keeps the queue sorted by time |
| `Retransmit.StopsExactly` | `src/tinydtls/dtls.c:4205-4219` | Stopping a session takes out exactly its nodes, with one entry for each, and leaves those of all other sessions in their order |
| `Retransmit.StoppedForGood` | `src/tinydtls/dtls.c:4205-4219` | In every run, no record that a session had queued before it was stopped is sent again, given up or stopped later |
| `Retransmit.StopKeeps` | `src/tinydtls/dtls.c:4205-4219` | And sorting, counts and times stay as they have to be |
| `Retransmit.CheckLeaves` | `src/tinydtls/dtls.c:4154-4236` | A call of the timer neither loses a node nor makes one up: what is left are the nodes that were not due and those that were, put off |
| `Retransmit.QueuedAsSent` | `src/tinydtls/dtls.c:1606-1640` | In every run each record that was queued is one that was sent, with its type and its payload and what is read back from its header |
| `Retransmit.SendQueue.CheckRetransmit` | `src/tinydtls/dtls.c:4221-4236` | dtls_check_retransmit as a loop against its function |
| `Retransmit.SendQueue.RetransmitNode` | `src/tinydtls/dtls.c:4154-4203` | dtls_retransmit: back in the queue with twice the wait and prepared again from what was kept, or dropped |
| `Retransmit.SendQueue.InsertNode` | `src/tinydtls/netq.c:99-120` | netq_insert_node |
| `Retransmit.SendQueue.KeepForRetransmission` | `src/tinydtls/dtls.c:1606-1640` | dtls_send_multi keeps type, payload and, read back from the record, version, epoch and 16 bits of the number |
| `Retransmit.SendQueue.StopRetransmission` | `src/tinydtls/dtls.c:4205-4219` | dtls_stop_retransmission |
| `CoapMessage.DecodeAfterEncode` | `src/BreakoutSDK/CoAP/CoAPMessage.cpp:113-290` | Decoding an encoded message gives header, token and payload back, and the options stably sorted by number, for every message that can be encoded and whose option formats are the decoder's |
| `CoapMessage.EncodeAfterDecode` | `src/BreakoutSDK/CoAP/CoAPMessage.cpp:292-319` | Every decoded buffer can be encoded again, and gives the same bytes if and only if no uint option begins with a zero byte and no If-None-Match has a value |
| `CoapMessage.OrderedIsStableSort` | `src/BreakoutSDK/CoAP/CoAPMessage.cpp:162-178` | The selection loop visits the options in ascending order, each number's in their original order |
| `CoapMessage.StableSortUnique` | `src/BreakoutSDK/CoAP/CoAPMessage.cpp:162-178` | There is one such order only |
| `CoapMessage.OptionsReadBack` | `src/BreakoutSDK/CoAP/CoAPMessage.cpp:242-290` | The options and what follows them are parsed back |
| `CoapMessage.HeaderReads` | `src/BreakoutSDK/CoAP/CoAPMessage.cpp:192-240` | Every header field and the token are read back |
| `CoapWire.OptionStands` | `src/BreakoutSDK/CoAP/CoAPOption.cpp:133-165` | Every option as section 3.1 of RFC 7252 has it: the delta in the upper nibble and first behind it, then the length, then the value |
| `CoapWire.GetIs` | `src/BreakoutSDK/CoAP/CoAPMessage.cpp:113-190` | For all ids, tokens and short paths, a GET is printed as section 3 of RFC 7252 has it, byte by byte |
| `CoapWire.ContentIs` | `src/BreakoutSDK/CoAP/CoAPMessage.cpp:113-190` | And so is an answer with a payload |
| `CoapWire.Figures` | `src/BreakoutSDK/CoAP/CoAPMessage.cpp:113-190` | The messages of appendix A of RFC 7252 |
| `CoapOption.ParseEncoded` | `src/BreakoutSDK/CoAP/CoAPOption.cpp:133-165` | The forms of delta and length are disjoint: an encoded option parses back whatever follows, and never begins with the payload marker |
| `CoapOption.ParsedWasEncoded` | `src/BreakoutSDK/CoAP/CoAPOption.cpp:191-219` | And unique: what parses is the encoding of what was found |
| `CoapOption.EncodedInterprets` | `src/BreakoutSDK/CoAP/CoAPOption.cpp:221-275` | A value of the right format is decoded back, and its encoding is canonical |
| `CoapOption.InterpretedBytes` | `src/BreakoutSDK/CoAP/CoAPOption.cpp:221-275` | A decoded value is encoded to the same bytes if they were canonical and to fewer otherwise |
| `CoapOption.UintLengthLeast` | `src/BreakoutSDK/CoAP/CoAPOption.cpp:104-122` | The length chosen for a uint is the least that holds it |
| `CoapOption.Bin.PutVarUint` | `src/BreakoutSDK/utils/bin_t.h:88-97` | bin_t_encode_varuint: big endian, or nothing |
| `CoapOption.Bin.GetVarUint` | `src/BreakoutSDK/utils/bin_t.h:99-110` | bin_t_decode_varuint, refused beyond eight bytes |
| `CoapCodec.Encode` | `src/BreakoutSDK/CoAP/CoAPMessage.cpp:113-190` | The statements of encode: they fail exactly if something does not fit its field or the buffer, and otherwise append the message |
| `CoapCodec.Decode` | `src/BreakoutSDK/CoAP/CoAPMessage.cpp:192-290` | The statements of decode against the parser |
| `CoapCodec.TestCodec` | `src/BreakoutSDK/CoAP/CoAPMessage.cpp:292-319` | testCodec passes if and only if the buffer decodes, has at most 256 bytes and its options are canonical |
| `CoapCodec.EncodeOption` | `src/BreakoutSDK/CoAP/CoAPOption.cpp:85-189` | CoAPOption::encode: fails exactly if the number descends, delta or length is above 65804 or the room is short |
| `CoapCodec.DecodeOption` | `src/BreakoutSDK/CoAP/CoAPOption.cpp:191-275` | CoAPOption::decode against the parser |
| `CoapCodec.EncodeOptions` | `src/BreakoutSDK/CoAP/CoAPMessage.cpp:162-178` | The selection-sort loop writes the options in their stable order, and fails exactly if one of them does |
| `CoapCodec.DecodeOptions` | `src/BreakoutSDK/CoAP/CoAPMessage.cpp:242-262` | The loop over the options stops at the end or the payload marker |
| `CoapClient.TableInEveryRun` | `src/BreakoutSDK/CoAP/CoAPPeer.cpp:700-867` | In every run space_left and the table add up to NSTART and the message ids in flight are distinct |
| `CoapClient.OneEventEach` | `src/BreakoutSDK/CoAP/CoAPPeer.cpp:589-616` | In every run a transaction has at most one of ACK, RST, Timeout and Canceled |
| `CoapClient.TimeoutAfterBackOff` | `src/BreakoutSDK/CoAP/CoAPPeer.cpp:721-757` | In every run a Timeout comes after exactly MAX_RETRANSMIT retransmissions and at least 15 times the first interval, which is at least 5000 ms |
| `CoapClient.DoKeeps` | `src/BreakoutSDK/CoAP/CoAPPeer.cpp:434-447` | Sending, an ACK or RST, cancelling and the timer each keep the invariant behind these |
| `CoapClientSteps.TriggerExactly` | `src/BreakoutSDK/CoAP/CoAPPeer.cpp:721-757` | One call of the timer: each transaction that is due and has retransmissions left is sent again once, with its message, has one less left and waits anew, a CON twice as long; all others stay; what is over is told so and goes |
| `CoapClientSteps.ResentOnceIfDue` | `src/BreakoutSDK/CoAP/CoAPPeer.cpp:721-757` | In every run the timer sends a transaction again exactly once if it is due, and otherwise not |
| `CoapClientSteps.UnansweredTimesOut` | `src/BreakoutSDK/CoAP/CoAPPeer.cpp:721-757` | After every run, a CON with a callback that is saved and never answered, with the timer called at each expiry, is sent again exactly MAX_RETRANSMIT times and then told Timeout |
| `CoapClientSteps.AnsweredExactly` | `src/BreakoutSDK/CoAP/CoAPPeer.cpp:589-616` | In every run an ACK, RST or cancellation ends exactly the transaction with its id, telling it Ack, Rst or Canceled |
| `CoapClientSteps.DropExpiredExactly` | `src/BreakoutSDK/CoAP/CoAPPeer.cpp:700-719` | What is dropped as expired, and who is told |
| `CoapClientSteps.ProbesInEveryRun` | `src/BreakoutSDK/CoAP/CoAPPeer.cpp:800-830` | A NON in flight was sent again as often as its count has gone down, at one interval |
| `CoapClientSteps.ProbeSaved` | `src/BreakoutSDK/CoAP/CoAPPeer.cpp:795-830` | After every run, a NON with a new id that finds room is saved behind the others, with the interval of its rate and as many repetitions as fit into its span |
| `CoapClientLoss.LostExactlyUnderItsId` | `src/BreakoutSDK/CoAP/CoAPPeer.cpp:418-431` | In every run, an operation makes a live transaction with a callback go away without an event if and only if it sends, or fails to send, under the same message id |
| `CoapClientLoss.SendLosesIfInFlight` | `src/BreakoutSDK/CoAP/CoAPPeer.cpp:418-431` | What a caller can look up beforehand: sending loses a callback if and only if the id is in flight with one |
| `CoapClientLoss.SendingTwiceLosesBoth` | `src/BreakoutSDK/CoAP/CoAPPeer.cpp:418-431` | Sending twice under one id leaves nothing in flight and calls no callback |
| `CoapClient.Transactions.TriggerRetransmissions` | `src/BreakoutSDK/CoAP/CoAPPeer.cpp:721-757` | triggerClientTransactionRetransmissions as a loop against its function |
| `CoapClient.Transactions.DropExpiredTransactions` | `src/BreakoutSDK/CoAP/CoAPPeer.cpp:700-719` | dropExpiredClientTransactions as a loop |
| `CoapClient.Transactions.PutTransaction` | `src/BreakoutSDK/CoAP/CoAPPeer.cpp:760-830` | putClientTransactionCON and NON: refused for a known id or a full table |
| `CoapClient.Transactions.DropById` | `src/BreakoutSDK/CoAP/CoAPPeer.cpp:843-867` | dropClientTransaction by message id |
| `CoapServer.HandledOncePerTransaction` | `src/BreakoutSDK/CoAP/CoAPPeer.cpp:564-684` | In every run, between two calls of the handler for one message id its transaction expired or was evicted |
| `CoapServer.DuplicatesGetTheStoredReply` | `src/BreakoutSDK/CoAP/CoAPPeer.cpp:564-588` | In every run, what is repeated for a duplicate is the ACK or RST stored last for its transaction, which is still there, byte for byte |
| `CoapServerAnswers.NewRequestAnswered` | `src/BreakoutSDK/CoAP/CoAPPeer.cpp:564-684` | In every run, what arrives under an unknown id and is not empty is saved for 114500 or 30052 ms, after a full table made room; it is handled exactly if there is a handler; and only a CON is answered, with what decodes to an empty ACK or RST under its id as the handler asks, stored and sent |
| `CoapServerAnswers.EmptyAnswered` | `src/BreakoutSDK/CoAP/CoAPPeer.cpp:520-540` | An empty CON is answered with what decodes to an empty RST under its id, an empty NON with nothing |
| `CoapServerAnswers.ReplyDecodes` | `src/BreakoutSDK/CoAP/CoAPMessage.cpp:55-65` | What an empty reply decodes to |
| `CoapServerAge.DuplicateOnlyRepeats` | `src/BreakoutSDK/CoAP/CoAPPeer.cpp:520-588` | In every run, an arrival under an id whose transaction is there causes nothing but expiries and at most a repetition of the stored reply, if and only if it is not an empty CON; the reply is repeated exactly if there is one |
| `CoapServerAge.EmptyConAnswers` | `src/BreakoutSDK/CoAP/CoAPPeer.cpp:520-528` | The exception: an empty CON is answered with a new RST, which replaces the stored reply |
| `CoapServer.TableInEveryRun` | `src/BreakoutSDK/CoAP/CoAPPeer.cpp:898-984` | In every run space_left and the table add up to NSYNC and the ids are distinct |
| `CoapServerAge.EvictsTheNewest` | `src/BreakoutSDK/CoAP/CoAPPeer.cpp:926-951` | In every run, a full table makes room by dropping its head, which was saved after every other transaction that is there |
| `CoapServerAge.OldestOnlyIfAlone` | `src/BreakoutSDK/CoAP/CoAPPeer.cpp:935-947` | The head is the oldest transaction, as the code takes for granted, if and only if it is alone, so never when the table is full |
| `CoapServerAge.FullTableLosesTheLast` | `src/BreakoutSDK/CoAP/CoAPPeer.cpp:912-959` | 128 requests fill the table; one more drives out the last of them and the first stays |
| `CoapServerAge.OrderedInEveryRun` | `src/BreakoutSDK/CoAP/CoAPPeer.cpp:949-951` | In every run the list is in the order of arrival, the newest first |
| `CoapServerAge.ExpiredLeavesWithTheNewer` | `src/BreakoutSDK/CoAP/CoAPPeer.cpp:898-910` | In every run, dropping expired transactions removes one if and only if it and all that came after it have expired |
| `CoapServerAge.HandledAgain` | `src/BreakoutSDK/CoAP/CoAPPeer.cpp:564-588` | A request under a known id is handled anew if and only if its transaction and all newer ones have expired |
| `CoapServerAge.StaysPastItsLifetime` | `src/BreakoutSDK/CoAP/CoAPPeer.cpp:898-910` | A request is suppressed 9948 ms after its transaction expired, because a newer one has not |
| `CoapServer.RemovedBetween` | `src/BreakoutSDK/CoAP/CoAPPeer.cpp:898-984` | An id that was live and is not expired or was evicted in between |
| `CoapServer.Transactions.HandleRx` | `src/BreakoutSDK/CoAP/CoAPPeer.cpp:564-684` | handleRx for a decoded CON or NON against its function |
| `CoapServer.Transactions.PutTransaction` | `src/BreakoutSDK/CoAP/CoAPPeer.cpp:912-959` | putServerTransaction: evicts when full, inserts before the expiry is set |
| `CoapServer.Transactions.DropExpiredTransactions` | `src/BreakoutSDK/CoAP/CoAPPeer.cpp:898-910` | dropExpiredServerTransactions stops at the first that has not expired |
| `CoapServer.Transactions.InsertSort` | `src/BreakoutSDK/CoAP/CoAPPeer.cpp:949-951` | The sorted insertion, with the expiry still 0 |
| `CoapServer.Transactions.SendReply` | `src/BreakoutSDK/CoAP/CoAPPeer.cpp:357-381` | An ACK or RST is stored for its transaction and sent |
| `ModemLines.RxBuffer.HandleAll` | `src/BreakoutSDK/modem/OwlModem.cpp:753-777` | Over any number of timer events on a buffer that was empty, if each read finds room for what it asks, the lines handed to processURC and the rest in the buffer are the split of all bytes received |
| `ModemLines.RxBuffer.HandleRxOnTimer` | `src/BreakoutSDK/modem/OwlModem.cpp:753-777` | One timer event: drained, then consumed |
| `ModemLines.ChunksDoNotMatter` | `src/BreakoutSDK/modem/OwlModem.cpp:625-652` | Consuming after each chunk what is left and the chunk gives the lines and the rest of the whole stream |
| `ModemLines.RxBuffer.ConsumeUnsolicited` | `src/BreakoutSDK/modem/OwlModem.cpp:625-652` | The lines handed over and the rest left are the split of the buffer at CR and LF |
| `ModemLines.RxBuffer.ConsumeInCommand` | `src/BreakoutSDK/modem/OwlModem.cpp:654-679` | Exactly the unsolicited lines leave the buffer; the others and the rest stay in order |
| `ModemLines.RxBuffer.NextCompleteLine` | `src/BreakoutSDK/modem/OwlModem.cpp:582-607` | The next line that is complete, from a start index on |
| `ModemLines.RxBuffer.RemoveLine` | `src/BreakoutSDK/modem/OwlModem.cpp:609-623` | The line and one CRLF directly behind it leave the buffer, all else stays |
| `ModemLines.RxBuffer.Drain` | `src/BreakoutSDK/modem/OwlModem.cpp:682-713` | Draining keeps a suffix of old contents and input that fits; all of it if and only if each read in turn finds the room it asks for; the newest bytes when reads are complete |
| `ModemLines.ScanJoin` | `src/BreakoutSDK/modem/OwlModem.cpp:582-607` | Splitting may stop and go on anywhere |
| `ModemLines.SplitFromTheFront` | `src/BreakoutSDK/modem/OwlModem.cpp:582-607` | The split of a stream is its maximal stretches without CR and LF, from the front; the last is a line only if something follows it |
| `ModemLines.KeptAre` | `src/BreakoutSDK/modem/OwlModem.cpp:654-679` | The lines that stay are just those that are not unsolicited |
| `MergeSort.SortsStably` | `src/tinydtls/utlist.h:111-169` | For every list and total preorder the result is a permutation, sorted, with equal nodes in their original order |
| `MergeSort.Sort` | `src/tinydtls/utlist.h:111-169` | The statements of LL_SORT2 over next pointers end, and leave a null-terminated list of exactly the sorted nodes |
| `MergeSort.PassOver` | `src/tinydtls/utlist.h:121-161` | One pass merges neighbouring runs and counts its merges |
| `MergeSort.MergeRuns` | `src/tinydtls/utlist.h:137-157` | The inner loop links the merge of both runs behind the list so far and leaves the rest |
| `MergeSort.StepOver` | `src/tinydtls/utlist.h:129-135` | psize and q after stepping over the first run |
| `MergeSort.PassDoubles` | `src/tinydtls/utlist.h:121-161` | A pass makes sorted runs of k into sorted runs of 2k |
| `MergeSort.MergeInOrder` | `src/tinydtls/utlist.h:137-157` | Merging keeps the order and its stability |
| `UtHash.RunIsMap` | `src/tinydtls/uthash.h:156-476` | Over every sequence of insertions, replacements and deletions the table is a map |
| `UtHash.FindIsLookup` | `src/tinydtls/uthash.h:156-173` | HASH_FIND finds what that map has, and nothing else |
| `UtHash.TableInEveryRun` | `src/tinydtls/uthash.h:396-476` | In every run each item is in the bucket of its hash, counts sum up to num_items, and list and chains hold the same items under distinct keys |
| `UtHash.ExpandKeeps` | `src/tinydtls/uthash.h:908-956` | Doubling keeps items and list, doubles the buckets, puts each item in the bucket of its hash, and nonideal_items is the sum of what exceeds the ideal length |
| `UtHash.ExpandKeepsFinds` | `src/tinydtls/uthash.h:908-956` | Doubling changes no find |
| `UtHashGrowth.AddGrows` | `src/tinydtls/uthash.h:820-877` | Adding an item doubles the buckets if and only if its bucket holds ten times one more than its multiplier and expansion is not switched off |
| `UtHashGrowth.GrowthInEveryRun` | `src/tinydtls/uthash.h:908-956` | In every run expansion is switched off exactly by two ineffective ones in a row |
| `UtHashGrowth.ExpandWeighs` | `src/tinydtls/uthash.h:926-956` | After doubling each multiplier is the bucket's length in ideal lengths if it exceeds one, and an expansion is ineffective if and only if more than half of the items exceed the ideal length |
| `UtHash.IdealIsCeiling` | `src/tinydtls/uthash.h:921-923` | The shift and mask compute the number of items per new bucket, rounded up |
| `UtHash.MaskIsRemainder` | `src/tinydtls/uthash.h:430-433` | hashv & (num_bkts - 1) is the remainder |
| `UtHash.AddRefines` | `src/tinydtls/uthash.h:396-415` | Adding an absent key |
| `UtHash.DeleteRefines` | `src/tinydtls/uthash.h:450-476` | Deleting what was found |
| `UtHash.Head.AddItem` | `src/tinydtls/uthash.h:396-415` | The statements of adding, with list, counts, buckets and expansion |
| `UtHash.Head.ExpandBuckets` | `src/tinydtls/uthash.h:908-956` | The nested loops of the expansion |
| `UtHash.PourBucket` | `src/tinydtls/uthash.h:926-943` | The loop that moves one old chain |
| `UtHash.Head.Lookup` | `src/tinydtls/uthash.h:156-173` | The statements of finding |
| `UtHash.Head.DeleteItem` | `src/tinydtls/uthash.h:450-476` | The statements of deleting; the last item takes the table along |

## Left out

- AES, SHA-256 and the elliptic-curve ciphers: the block function and the hash are arbitrary functions, and only the PSK cipher is known.
- TLS extensions and certificate requests are arbitrary predicates on the message; certificates end the handshake with an error as they do without ECDSA callbacks.
- Lists and queues are sequences, except in `MergeSort`, where nodes are relinked through an array of next pointers; aliasing of queue and hash nodes is therefore not modelled.
- A datagram is one record; several in one datagram are several arrivals here, so that a peer pointer kept across them after the peer was replaced is not modelled, nor is the use of a freed slot.
- Reads beyond the end of a message that the code does not check give 0 here. A cipher list of odd length, behind which the code reads on without bound, is read on to the end of the message.
- The record check is the one of a build without content type checks: any type but 0.
- Application data is handed over without a change of the session; stopping retransmissions belongs to `Retransmit`, whose queue is not part of `Session`.
- Randoms and master secret have fields of their own, where the source keeps both in a union (`src/tinydtls/crypto.h:113-120`): keys computed a second time from the same randoms, as by a client that is sent ServerHelloDone again because its flight failed with a code that closes nothing, are computed there from what the first time has left.
- Callbacks return no more bytes than they are asked for, so the checks of their lengths behind them (`src/tinydtls/dtls.c:2165`, `2354`) are left out.
- What sending and the callbacks for identity, hint and key return is arbitrary; their calls are entries of a log.
- Record sequence numbers are unbounded, so their wrap after 2^48 records is not modelled; `Slots.SlotsInEveryRun` and the lemmas of `WindowRun` suppose that the 16-bit epoch does not wrap, and `ArrivalOrder.OrderIsIrrelevant` that the 16-bit message numbers of the messages in question do not.
- Replay.NoReplay: accepted packets stay within the shift width, beyond which the code does accept numbers twice (`Replay.WidthNeeded`, `Replay.Int32Replays`); number 0 has lemmas of its own. `WindowRun` supposes the same.
- Record.PrepareRecord: demands of sealed records that the buffer holds the tag of what passes the room check, which the code does not check; when it does is stated by `Record.TagFitsExactly`.
- The clock is read once per operation in the CoAP tables; callbacks are entries of a log and do not call back into the peer; they cannot fail.
- A non-confirmable message whose retransmission interval comes out as 0, and allocations that fail.
- Option numbers are unbounded, where the source stores their sums in an enumeration.
- CoAP handling starts from a decoded message, since a message that fails to decode is handled on in whatever state it was left.
- The stateless message handler, tokens and message id generation, `getNextOption` and the single option accessors.
- `processURC` is an arbitrary predicate on lines; result extraction, the AT commands, sockets, GNSS, power and the command line interface are not modelled.
- MergeSort.Sort: run lengths are unbounded, where the source doubles an `int`.
- The doubly linked sort, sorting and ordered insertion of hash tables, and Bloom filters.
- UtHash.Head.AddItem: only for a key that is absent, as the macro demands of its callers; `HASH_REPLACE` is the sequence of both operations in `UtHash.RunIsMap`.
- Serial numbers, start times and logs of transactions and queue nodes exist for the statements only.
- `dtls_cipher_context` sharing, logging and the platform variants for Contiki, RIOT and POSIX.
