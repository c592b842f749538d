# duocb, verified

duocb links two devices at a time: they trust each other's identity cards, find
each other on the local network or over relays, authenticate, and share a
clipboard over one stream. This project is a Dafny 4.11 model of the logic of
that: the session protocols, the loops that host and dial, what is kept on
disk, and the codecs underneath. `dafny verify dfyconfig.toml` checks it all.

One module a component:

- **Session protocols.** `Clipboard` is the pump and its resume as a step
  system of two ends and two ordered streams, `ClipboardPump` one end's code,
  each arm of it proved to be a step of that system. `CardExchange` is the
  write, read, finish, drain protocol over byte pipes of bounded capacity,
  `CardExchangeEnd` one end's code. `KeyAuth` is the signed transcript byte for
  byte and the two halves of the key handshake, `KeyAgreement` any number of
  handshakes over a network that does as it likes. `PinAuth` is the slotted PIN
  handshake of both ends, `PinHost` the window of honoured PINs and the
  publisher that rotates and revokes them.
- **Loops and what outlives them.** `PairClaim`, `ServeLoop` (the preempting
  accept loop), `CardSetupHost`, `SessionMemory` (the command loop),
  `ClientRetry`, `HostingPublisher`. Each loop is a method proved to compute a
  state machine on values, driven by a script of what the environment does;
  the theorems quantify over all scripts.
- **Persistence and trust.** `Identity`, `Cards`, `Config` (the loader, and
  the disk one system call at a time), `App` (every trust transition, against
  that loader and that disk), `Lifetime` (an installation's whole life of
  starts, saves, recoveries and crashes).
- **Codecs.** `Bytes`, `Utf8`, `Framing`, `Messages`, `RejectReason`,
  `PinText` and `Rotation`, `Lan`, `Rendezvous`, `Ffi`.

Inputs to the model: clocks, random bytes, what the network and the operating
system do, and the order in which concurrent things happen. Cryptography is
ideal: a proof verifies only for the key and transcript it was made for, a
SPAKE2 key or a MAC stands for what went into it, SHA-256 and fingerprints are
functions passed in. Timeouts are steps that may or may not be taken. Moves
that cannot happen where a run has them do nothing, so every sequence of moves
is a run.

Where the code does something else than its documentation or the obvious
claim, the model follows the code and says so:

- The resume re-delivery can miss an item whose encoding is within two bytes
  of the cap (`Clipboard.ConvergenceIsExact`).
- Character casts to a byte let non-ASCII text through as a PIN
  (`PinText.ForeignCharactersCanPass`); the check digit misses exactly the
  typos of `PinText.SubstitutionPassesExactlyWhen` and
  `PinText.SwapPassesExactlyWhen`.
- A running pump can end, and the host fall back to waiting, with no
  disconnection announced: exactly when a connection from its own node preempts
  it and is not entitled to pair (`ServeLoop.PumpEndsSilentlyExactlyWhen`).
- A card-setup host can show no PIN at all: exactly when, by the time its
  publisher first looks, a task has committed the claim since the first start
  of the logical session it continues (`SessionMemory.PinShownExactlyWhen`). A wrong PIN from the device holding
  that claim then ends the session as if the PIN had been accepted
  (`CardSetupHost.WrongPinKeepsListening`).
- A save with a new identity can crash into a state that starts the new
  identity with the old one's peers (`Config.HybridStartsExactlyWhen`).
- The dialer's branch for an authentication error that is not fatal cannot be
  reached: every error there is made fatal where it is raised
  (crates/duocb-core/src/net/runtime.rs:1972-1980 and 934-941), so
  `ClientRetry` has no such round.

## Model

| member | source | states |
|---|---|---|
| `Clipboard.ResumeConverges` | crates/duocb-core/src/net/runtime.rs:1258-1356 | Over any run of one session (sends, partial deliveries, either end dropping or replacing the connection at any moment), whenever a connection is up and idle both receivers hold the other side's last sent text, unless its encoding is within two bytes of the cap and this connection did not carry it |
| `Clipboard.ConvergenceIsExact` | crates/duocb-core/src/net/runtime.rs:1303-1325 | An item that could be sent is in the receiver's inbox at every quiet moment it is the latest of, if and only if its encoding leaves two bytes of the cap unused |
| `Clipboard.CapEdgeItemCanBeLost` | crates/duocb-core/src/net/runtime.rs:1313-1316 | A concrete run: an item that fits as a push but not as a re-delivery, cut off once, never arrives |
| `Clipboard.OnlySubmittedTextArrives` | crates/duocb-core/src/net/runtime.rs:1327-1349 | At every moment what was read is a prefix of what was written, and each inbox holds at most five texts, each one already there or submitted by the other user |
| `Clipboard.RunKeepsInvariants` | crates/duocb-core/src/net/runtime.rs:1258-1356 | The invariants behind both: stream order, pushed items arriving until the reader stops, re-delivery coming until it arrives |
| `Clipboard.UnsettledCanStep` | crates/duocb-core/src/net/runtime.rs:1273-1349 | An up connection that is not at rest can always take another step of its own |
| `Clipboard.ResumeSettles` | crates/duocb-core/src/net/runtime.rs:1273-1349 | Left alone, the two pumps settle in at most as many steps as a rank of the state they are in |
| `Clipboard.TakenInOrder` | crates/duocb-core/src/net/runtime.rs:1278-1301 | Over every run and any number of connections, the texts taken from the queue followed by those still in it are the texts submitted, in order: none lost, repeated or overtaken |
| `Clipboard.TakenTextIsPushed` | crates/duocb-core/src/net/runtime.rs:1278-1301 | A taken text that fits goes on the stream whatever was sent before it, and is then the last item sent; one that does not fit is dropped with nothing written |
| `Clipboard.PullIsAnswered` | crates/duocb-core/src/net/runtime.rs:1303-1325 | A pull is answered with exactly the last item sent, if there is one that can be re-delivered, and the slot keeps it |
| `Clipboard.WritersKeepTheirFrame` | crates/duocb-core/src/net/runtime.rs:1258-1349 | A frame being written stays so, whatever either side does, until its write puts it on the stream or its connection goes |
| `Clipboard.FramesAreHandedOver` | crates/duocb-core/src/net/runtime.rs:1329-1349 | A frame read leaves the stream from the front: items go to the inbox, a pull to the writer |
| `Clipboard.DeliveryKeepsTheRest` | crates/duocb/src/app/mod.rs:459-468 | A delivered text comes first and the others stay in order, only the oldest of five forgotten; a re-delivery of a held text changes nothing |
| `ClipboardPump.Inbox.ItemReceived` | crates/duocb/src/app/mod.rs:459-468 | Re-deliveries of held text are dropped, anything else goes first and the newest five stay |
| `ClipboardPump.Pump.WritePull` | crates/duocb-core/src/net/runtime.rs:1271-1277 | Opening a stream is the model's opening step |
| `ClipboardPump.Pump.OnItem` | crates/duocb-core/src/net/runtime.rs:1278-1295 | Taking a queued item is the model's step; it is reported and dropped exactly when it does not fit |
| `ClipboardPump.Pump.OnNudge` | crates/duocb-core/src/net/runtime.rs:1303-1325 | Answering a pull re-delivers the last sent item if it fits and nothing otherwise |
| `ClipboardPump.Pump.Written` | crates/duocb-core/src/net/runtime.rs:1293-1301 | The last-sent slot changes only once an item's write has completed |
| `ClipboardPump.Pump.OnFrame` | crates/duocb-core/src/net/runtime.rs:1329-1349 | One turn of the reader is the model's read step |
| `Messages.RedeliveryCostsTwoBytes` | crates/duocb-core/src/protocol.rs:292-322 | The two clipboard tags differ by two bytes: an item can be re-delivered exactly when its first encoding left two to spare |
| `Messages.SomeItemCannotBeRedelivered` | crates/duocb-core/src/protocol.rs:510-513 | There is an item that can be sent and never re-delivered |
| `Messages.EscapingGrowsSixfoldAtMost` | crates/duocb-core/src/protocol.rs:493-498 | JSON escaping (RFC 8259, section 7) costs at most six bytes a byte |
| `Messages.AnyCardFitsAnOffer` | crates/duocb-core/src/protocol.rs:493-498 | Every card within 2 KiB encodes as an offer inside the 16 KiB control cap |
| `Messages.CardCapMarginIsExact` | crates/duocb-core/src/protocol.rs:493-498 | A card cap of n bytes guarantees that every offer fits exactly when n is at most 2726 |
| `Messages.EscapedReadsBack` | crates/duocb-core/src/protocol.rs:493-498 | A JSON string reader comes back with exactly the text that was escaped, whatever it is, and stops at its closing quote |
| `Messages.OfferReadsBack` | crates/duocb-core/src/protocol.rs:493-498 | An offer's bytes are UTF-8 and its card reads back whole |
| `Messages.ClipTailReadsBack` | crates/duocb-core/src/protocol.rs:292-322 | So do a clipboard body's text and time |
| `CardExchange.EndOfStreamProvesDelivery` | crates/duocb-core/src/card_exchange.rs:106-119 | Whatever fails, an end that returns holds exactly the peer's card, and one that saw the peer's stream end knows the peer holds its own |
| `CardExchange.NothingTrails` | crates/duocb-core/src/card_exchange.rs:106-119 | Between two ends running this code the drain has nothing to read and never fills up |
| `CardExchange.ClosingLosesNothing` | crates/duocb-core/src/card_exchange.rs:99-121 | In every interleaving of two ends that do not give up, a close comes only after both cards were read, and neither end ever finds the connection gone or fails |
| `CardExchange.ProgressNeedsOneCardOfBuffer` | crates/duocb-core/src/card_exchange.rs:77-97 | No interleaving gets stuck short of both ends having closed, if and only if one of the two streams can hold the whole card it carries |
| `CardExchange.SmallBuffersDeadlock` | crates/duocb-core/src/card_exchange.rs:80-97 | With less room than a card both ways, both ends can wait for each other for ever |
| `CardExchange.StepLowersRank` | crates/duocb-core/src/card_exchange.rs:69-121 | Every step lowers a measure of the work left |
| `CardExchange.ExchangeCompletes` | crates/duocb-core/src/card_exchange.rs:69-121 | An exchange takes a bounded number of steps and ends with both sides closed and holding each other's card |
| `CardExchangeEnd.OffersAreSelfDelimiting` | crates/duocb-core/src/protocol.rs:493-498 | An encoded offer says itself where it ends |
| `CardExchangeEnd.WantedIsTheRest` | crates/duocb-core/src/protocol.rs:526-547 | The reader asks for exactly the rest of the peer's frame, and for nothing only when it has it all |
| `CardExchangeEnd.Exchange.Wrote` | crates/duocb-core/src/card_exchange.rs:77-86 | The bytes written are the next of the own card; reading starts once all are out |
| `CardExchangeEnd.Exchange.ReadSome` | crates/duocb-core/src/card_exchange.rs:88-97 | Reading ends exactly when the peer's whole card is here |
| `CardExchangeEnd.Exchange.ShutDown` | crates/duocb-core/src/card_exchange.rs:99-104 | The own stream is finished only after that |
| `CardExchangeEnd.Exchange.Drained` | crates/duocb-core/src/card_exchange.rs:106-121 | The wait returns on the peer's end of stream, on 1024 trailing bytes, or on an error that is only logged; the card is returned whichever it is |
| `CardExchangeEnd.Exchange.Broke` | crates/duocb-core/src/card_exchange.rs:77-104 | Any stream error before that fails the exchange |
| `Framing.EncodeLengthPrefixed` | crates/duocb-core/src/protocol.rs:334-345 | Encoding succeeds exactly for bodies within the cap and yields the length-prefixed frame |
| `Framing.DecodeAcceptsExactlyOneFrame` | crates/duocb-core/src/protocol.rs:348-390 | A buffer decodes to a value if and only if it is one complete frame of it: in the cap, current version, nothing missing, nothing trailing |
| `Framing.EncodedDecodes` | crates/duocb-core/src/protocol.rs:334-390 | What encoding accepts decodes to the same value |
| `Framing.CutOrExtendedFrameIsRefused` | crates/duocb-core/src/protocol.rs:353-372 | Every cut of a frame is too short or incomplete, every extension is refused for its trailing bytes |
| `Framing.ByteStream.ReadExact` | crates/duocb-core/src/protocol.rs:526-547 | Gathering bytes depends only on what arrives, not on the pieces it arrives in |
| `Framing.ReadLengthPrefixed` | crates/duocb-core/src/protocol.rs:526-547 | One read takes one frame off the stream, or the error the prefix or the end of stream calls for |
| `Framing.ReadFrames` | crates/duocb-core/src/protocol.rs:526-547 | Repeated reads take off the frames that repeated reading of the whole byte string takes off |
| `Framing.WhatAReadRefuses` | crates/duocb-core/src/protocol.rs:526-547 | A prefix over the cap is refused with its body left unread; a stream that ends inside a prefix or a body reads as closed |
| `Framing.FramesComeBackWhole` | crates/duocb-core/src/protocol.rs:334-345 | The frames of any message sequence, concatenated and cut into any pieces, come back exactly |
| `Framing.FramesAreAPrefix` | crates/duocb-core/src/protocol.rs:526-547 | On any bytes whatever, the frames read are in-cap and lie end to end at the front |
| `Framing.CutStreamYieldsWholeFrames` | crates/duocb-core/src/protocol.rs:526-547 | If the stream ends early, wherever it is cut, the frames read are exactly those sent that arrived whole: a prefix, and no shorter than it has to be |
| `RejectReason.TruncatedReason` | crates/duocb-core/src/protocol.rs:33-42 | A truncated reason is whole characters, the longest run that leaves room for the dots, and within the limit exactly when the reason was or the limit has room for them |
| `RejectReason.ReasonsFit` | crates/duocb-core/src/protocol.rs:29-42 | So every reason sent is within 512 bytes |
| `Bytes.U32Truncates` | crates/duocb-core/src/protocol.rs:334-345 | The four-byte prefix holds a length modulo 2^32 |
| `Bytes.LexTotal` | crates/duocb-core/src/net/mod.rs:107-113 | Rust's order on byte arrays is total and antisymmetric |
| `Bytes.LexLeExactlyWhen` | crates/duocb-core/src/net/mod.rs:107-113 | And it is decided by the first byte that differs, or by which array is over there |
| `Utf8.Utf8RoundTrip` | crates/duocb-core/src/lan/dnssd.rs:822-839 | UTF-8 (RFC 3629, section 3) decoding undoes encoding on every string |
| `Utf8.OnlyEncodingsDecode` | crates/duocb-core/src/lan/dnssd.rs:822-839 | Bytes decode if and only if they are some string's encoding: no overlong form, surrogate or broken sequence is read as anything |
| `Utf8.FloorIsLongestWholePrefix` | crates/duocb-core/src/protocol.rs:33-42 | A cut at a byte limit keeps exactly the longest run of whole characters that fits |
| `KeyAuth.AuthTranscript` | crates/duocb-core/src/key_auth.rs:84-108 | Appending field by field builds the specified transcript |
| `KeyAuth.TranscriptInjective` | crates/duocb-core/src/key_auth.rs:84-108 | Transcripts of fields under 2^32 bytes are equal only if roles, keys, nonces and ids all are |
| `KeyAuth.OversizeFieldsCollide` | crates/duocb-core/src/key_auth.rs:93-96 | At 2^32 bytes the prefix wraps and two different sets of terms share a transcript |
| `KeyAuth.DialerHandshake` | crates/duocb-core/src/key_auth.rs:119-174 | The dialer succeeds, and signs at all, exactly when the selected key proved itself over this connection |
| `KeyAuth.ListenerHandshake` | crates/duocb-core/src/key_auth.rs:218-274 | Nothing is signed before admission; commit is asked exactly when the dialer's proof verifies; acceptance goes out exactly when it agrees |
| `KeyAgreement.ListenerAgreement` | crates/duocb-core/src/key_auth.rs:218-274 | Any number of honest devices, any network: a listener that accepts an honest key matches exactly one dialer run agreeing on keys, nonces and ids, and no other listener run matches that one |
| `KeyAgreement.DialerAgreement` | crates/duocb-core/src/key_auth.rs:119-174 | A dialer that completed, or even proved itself, against an honest peer matches exactly one run of that peer, which had admitted it |
| `KeyAgreement.AgreementIsOneToOne` | crates/duocb-core/src/key_auth.rs:84-108 | Fresh nonces pair runs one to one |
| `KeyAgreement.RunKeepsInv` | crates/duocb-core/src/key_auth.rs:119-274 | Every honest signature ever shown was made by a run with those very terms |
| `KeyAgreement.UndisturbedHandshakeCompletes` | crates/duocb-core/src/key_auth.rs:119-274 | Left alone, the handshake of two devices that trust each other completes on both sides from any state of the network |
| `KeyAgreement.DialerMoves` | crates/duocb-core/src/key_auth.rs:119-174 | The dialing half, at any moment of any network, signs exactly where the model's move is enabled, with the signature that move adds, and completes only where the next is |
| `KeyAgreement.ListenerAdmits` | crates/duocb-core/src/key_auth.rs:218-250 | The listening half signs a challenge exactly where admission is enabled, with the signature that move adds |
| `KeyAgreement.ListenerCompletes` | crates/duocb-core/src/key_auth.rs:250-274 | It asks to commit exactly where completion is enabled, and accepts exactly when that is agreed to |
| `PinAuth.ConfirmTextInjective` | crates/duocb-core/src/pin_auth.rs:115-126 | Confirmation texts separate directions, slots and endpoints for ids without a bar |
| `PinAuth.BarsConfuseConfirmTexts` | crates/duocb-core/src/pin_auth.rs:115-126 | With bars in the ids they would not |
| `PinAuth.IdentitiesInjective` | crates/duocb-core/src/pin_auth.rs:105-110 | The PAKE identities separate slots and endpoints |
| `PinAuth.DialerOpen` | crates/duocb-core/src/pin_auth.rs:166-178 | One message a slot, all from the typed PIN |
| `PinAuth.DialerAnswer` | crates/duocb-core/src/pin_auth.rs:178-201 | The dialer answers exactly a challenge of the right slot count whose every message finishes, with each slot's own confirmation |
| `PinAuth.ListenerChallenge` | crates/duocb-core/src/pin_auth.rs:250-284 | Slot i runs against the i-th newest PIN or a dummy; refused exactly for a wrong slot count or a bad message |
| `PinAuth.ListenerDecide` | crates/duocb-core/src/pin_auth.rs:285-334 | The least real slot that verifies is accepted exactly when the claim can be committed; a dummy never is |
| `PinAuth.Handshake` | crates/duocb-core/src/pin_auth.rs:145-334 | Both sides succeed or neither does: exactly when the PIN is among the candidates, both see the same endpoints and commit agrees; the slot named is the least that matches |
| `PinAuth.ConfirmationsDoNotReflect` | crates/duocb-core/src/pin_auth.rs:115-126 | A listener's confirmation is never a dialer's |
| `PinHost.RecentPins.Push` | crates/duocb-core/src/net/runtime.rs:162-168 | Newest first, the newest two stay |
| `PinHost.RecentPins.Clear` | crates/duocb-core/src/net/runtime.rs:177-179 | A refresh empties the window |
| `PinHost.NewestAreKept` | crates/duocb-core/src/net/runtime.rs:155-168 | The two kept are the first two, the newest |
| `PinHost.WindowIsLastTwo` | crates/duocb-core/src/net/runtime.rs:155-180 | Over any rotations and refreshes the window is the last two passwords since the last refresh |
| `PinHost.AuthAsPinListener` | crates/duocb-core/src/net/runtime.rs:2042-2128 | The listener accepts exactly what the window, the endpoints and the claim allow, and commits the claim exactly then |
| `PinHost.AcceptanceIsExact` | crates/duocb-core/src/net/runtime.rs:2101-2125 | At any moment of any history a PIN is accepted exactly when it is one of the last two since the last refresh, both ends see the same endpoints and nobody else holds the claim |
| `PinHost.RefreshRevokes` | crates/duocb-core/src/net/runtime.rs:177-179 | A password pushed before a refresh and not pushed again is never accepted afterwards |
| `PinHost.RunPublisher` | crates/duocb-core/src/net/runtime.rs:1744-1902 | The publisher's loop, started on a claim: exactly these PINs shown, this window left and these advertisements standing, with the claim's being taken decided by the claim itself |
| `PinHost.WindowIsOfShownPins` | crates/duocb-core/src/net/runtime.rs:1786-1899 | The window is always the passwords of the last two PINs shown, and turned into passwords, since the last refresh |
| `PinHost.HonouredWereShown` | crates/duocb-core/src/net/runtime.rs:1786-1899 | Every PIN still honoured and every one still advertised was shown; at most two are advertised |
| `PinHost.StandingAreTheNewest` | crates/duocb-core/src/net/runtime.rs:1786-1899 | The advertisements standing are the newest two of those made since the last refresh |
| `PinHost.NewestAdvertisementStands` | crates/duocb-core/src/net/runtime.rs:1786-1899 | A PIN just advertised is up, and the one before it beside it, until the next |
| `PinHost.ShownPinAcceptedExactlyWhen` | crates/duocb-core/src/net/runtime.rs:1744-1902 | Whatever the publisher has done, on the window any earlier PINs left, a PIN is accepted exactly when it is one of the last two shown since the last refresh, both ends see the same endpoints and nobody else holds the claim, unless another of those two stretches to the same password |
| `PinHost.RefreshRevokesShownPins` | crates/duocb-core/src/net/runtime.rs:1887-1899 | A PIN shown before a refresh and not shown again is refused from then on, whatever the publisher does next, under the same proviso |
| `PinHost.NothingShownAfterCleared` | crates/duocb-core/src/net/runtime.rs:1747-1750 | Once cleared the display stays clear |
| `PinHost.EachTurnShowsItsPin` | crates/duocb-core/src/net/runtime.rs:1747-1776 | The k-th thing shown is the k-th turn's PIN, for as long as the publisher gets there |
| `PinHost.ClearedExactlyWhen` | crates/duocb-core/src/net/runtime.rs:1747-1883 | The display is cleared exactly when a turn the publisher reaches is woken by a pairing or finds one before the next |
| `PinHost.ShowsExactlyWhenUnclaimed` | crates/duocb-core/src/net/runtime.rs:1744-1750 | A publisher shows a PIN at all exactly when the signal it starts on has not fired |
| `PinHost.SpentClaimAdmitsItsHolder` | crates/duocb-core/src/net/runtime.rs:2042-2045 | Under a spent claim the old window still admits the device that spent it, and nobody else |
| `PairClaim.Claim.CommitKey` | crates/duocb-core/src/net/runtime.rs:225-245 | A key gets in exactly when the claim is empty or its own; the node id follows it; the watchers' signal is fired exactly when the claim is taken |
| `PairClaim.Claim.CommitPin` | crates/duocb-core/src/net/runtime.rs:251-265 | A node gets in exactly when the claim is empty or its own; the signal likewise |
| `PairClaim.IdentityIsSetOnce` | crates/duocb-core/src/net/runtime.rs:208-265 | Over any commits, a claim once taken keeps its key, and without one its node |
| `PairClaim.OnlyTheFirstKeyIsAdmitted` | crates/duocb-core/src/net/runtime.rs:225-245 | After the first key, exactly that key is ever admitted, from any transport |
| `PairClaim.OnlyTheFirstNodeIsAdmitted` | crates/duocb-core/src/net/runtime.rs:251-265 | After a card-setup node, exactly that node is, and no key |
| `ServeLoop.AcceptServeable` | crates/duocb-core/src/net/runtime.rs:754-790 | The accept loop passes over refused dialers and comes out on the first event its caller acts on |
| `ServeLoop.AuthAsKeyListener` | crates/duocb-core/src/net/runtime.rs:2055-2100 | Trust, selection, card window and claim are checked before anything goes out: not even a signed challenge is written to a dialer that fails one; the claim is committed exactly when the proof then verifies, and only then is acceptance written |
| `ServeLoop.ServeConnection` | crates/duocb-core/src/net/runtime.rs:670-741 | One turn from the connection on: authenticate, pump while accepting, and what is left pending |
| `ServeLoop.RunServerSession` | crates/duocb-core/src/net/runtime.rs:644-742 | The nested accept loops with their pending connection are the state machine, event for event |
| `ServeLoop.ServeLoopInvariant` | crates/duocb-core/src/net/runtime.rs:597-794 | In every reachable state the claim is empty or the selected key's at the node of its last verified proof; at most one pump runs at any moment, on that node; every pairing is with the selected key; every preempting connection has the node of the one it replaces |
| `ServeLoop.OnlyTheSameNodePreempts` | crates/duocb-core/src/net/runtime.rs:706-742 | During a pump exactly the pump's own node gets past the gate; anyone else changes nothing |
| `ServeLoop.PairsExactlyWhen` | crates/duocb-core/src/net/runtime.rs:657-791 | In every reachable state of a session that goes on, a connection pairs exactly when it brings trust, the selected key, a current card, a proof and reception of the acceptance - from any node between pumps, from the pump's own node during one |
| `ServeLoop.StopsExactlyWhen` | crates/duocb-core/src/net/runtime.rs:644-742 | From any state not stopped, over every script, the session is over exactly when the script holds a cancel or the endpoint closing: failed handshakes, refused dialers, failed authentications and pumps that end all leave it accepting |
| `ServeLoop.PumpGoesOnUnless` | crates/duocb-core/src/net/runtime.rs:684-742 | What every possible next happening makes of a running pump: accepting again by its own end or an own-node connection that does not pair, stopped by a cancel or a closed endpoint, and otherwise still a pump for the same node |
| `ServeLoop.PairingsAreAccountedFor` | crates/duocb-core/src/net/runtime.rs:684-742 | Every pairing is still live, ended by itself, was preempted or was cancelled; only the second is announced |
| `ServeLoop.FailedPreemptionIsSilent` | crates/duocb-core/src/net/runtime.rs:684-730 | After any script, a connection from the pump's own node drops the pump and leads back to waiting with no disconnection announced, if and only if it lacks one of those five |
| `ServeLoop.PumpEndsSilentlyExactlyWhen` | crates/duocb-core/src/net/runtime.rs:684-742 | Over every possible next happening: a running pump ends in waiting unannounced exactly by such a connection, and by nothing else |
| `ServeLoop.ThatHappens` | crates/duocb-core/src/net/runtime.rs:684-730 | A run that does so |
| `CardSetupHost.RunCardSetupHost` | crates/duocb-core/src/net/runtime.rs:1062-1118 | The sequential host loop with the real handshake is the state machine, event for event |
| `CardSetupHost.ServeOne` | crates/duocb-core/src/net/runtime.rs:1066-1113 | One dialer: handshake, exchange, and whether the session goes on |
| `CardSetupHost.AcceptedIsAdmitted` | crates/duocb-core/src/net/runtime.rs:2101-2125 | The state machine admits exactly what the two-sided handshake accepts |
| `CardSetupHost.CardSetupInvariant` | crates/duocb-core/src/net/runtime.rs:1014-1123 | A claim once held keeps its node; before the end nobody was paired; an ended session paired with at most the claim's device and took at most one card, last thing |
| `CardSetupHost.CardCrossesExactlyWhen` | crates/duocb-core/src/net/runtime.rs:1062-1118 | After any history, under any claim and PIN window an earlier session left, a card is taken from a dialer exactly when nobody else holds the claim, its PIN is still in the window, and its card arrives |
| `CardSetupHost.HonouredOverTheWholeMemory` | crates/duocb-core/src/net/runtime.rs:155-180 | That window is the last two passwords since the last refresh over the whole life of the memory, earlier sessions included |
| `CardSetupHost.WrongPinKeepsListening` | crates/duocb-core/src/net/runtime.rs:1096-1118 | Under any inherited claim and window, a wrong PIN costs nothing, except that the device an earlier session gave the claim to ends the session |
| `CardSetupHost.DialDoes` | crates/duocb-core/src/net/runtime.rs:1062-1118 | What a dialer does to a listening session in every reachable state: turned away exactly when somebody else holds the claim; otherwise given the claim exactly when its PIN is honoured, announced exactly when it hears so, failed or waited past exactly as the claim is or is not its own |
| `CardSetupHost.SessionEndsExactlyWhen` | crates/duocb-core/src/net/runtime.rs:1062-1118 | A session ends exactly by a cancel, its endpoint closing, or serving the device that holds the claim or proves an honoured PIN for a free one |
| `SessionMemory.NetMain` | crates/duocb-core/src/net/runtime.rs:526-581 | Up to the first shutdown every task is lent exactly the specified memory, objects shared exactly when the memories are one, and at most one task runs at any moment |
| `SessionMemory.Runtime.EnsureMemory` | crates/duocb-core/src/net/runtime.rs:371-376 | The held memory is reused exactly when its key is the session's |
| `SessionMemory.Runtime.StartSession` | crates/duocb-core/src/net/runtime.rs:536-547 | The old task is stopped before the new one starts on its memory |
| `SessionMemory.Runtime.Reset` | crates/duocb-core/src/net/runtime.rs:548-552 | Stopping ends the task and forgets the memory |
| `SessionMemory.Runtime.Handle` | crates/duocb-core/src/net/runtime.rs:534-577 | Each command does what the specification says, and keeps at most one task running |
| `SessionMemory.SharesMemoryExactlyWhen` | crates/duocb-core/src/net/runtime.rs:339-376 | A task is lent an earlier one's claim and PIN window exactly when every start between them was the same session - role, mode, channel, both devices or the PIN - and nobody pressed stop |
| `SessionMemory.NextTaskSharesMemoryExactlyWhen` | crates/duocb-core/src/net/runtime.rs:371-376 | For consecutive tasks: the same role, mode, channel and devices or PIN, and no stop between |
| `SessionMemory.KeysMeanSessions` | crates/duocb-core/src/net/runtime.rs:306-337 | Two session keys are equal exactly when role, mode and channel are, and with them both devices' keys or the PIN typed |
| `SessionMemory.LentIsWhatTheSessionMadeOfIt` | crates/duocb-core/src/net/runtime.rs:339-376 | What a task is lent is exactly the claim after every commit, and the window after every push and refresh, of all tasks of its logical session so far |
| `SessionMemory.RunsExactlyWhile` | crates/duocb-core/src/net/runtime.rs:526-581 | A task runs exactly from its start until another start, a stop, the shutdown or its own end |
| `SessionMemory.EndingForgetsNothing` | crates/duocb-core/src/net/runtime.rs:526-581 | Neither a task ending by itself nor the shutdown forgets the memory |
| `SessionMemory.ClaimedOnce` | crates/duocb-core/src/net/runtime.rs:208-265 | While a logical session continues, across any tasks, a claimed identity is set once |
| `SessionMemory.StopForgets` | crates/duocb-core/src/net/runtime.rs:548-552 | After a stop the next task starts unclaimed with no PIN honoured |
| `SessionMemory.PinShownExactlyWhen` | crates/duocb-core/src/net/runtime.rs:1744-1750 | Over any history of the command loop, a card-setup host shows a PIN if and only if, by the time its publisher first looks, no running task (itself included) has committed a claim since the first start of the logical session it continues |
| `SessionMemory.UnclaimedExactlyWhen` | crates/duocb-core/src/net/runtime.rs:339-376 | The same for the claim any task is lent |
| `SessionMemory.FirstStartMints` | crates/duocb-core/src/net/runtime.rs:371-376 | A task's memory was minted by the first start of the logical session it continues |
| `SessionMemory.Runtime.PublishPins` | crates/duocb-core/src/net/runtime.rs:405-440 | A host task's publisher runs on the claim and window the task was lent, and shows what that claim allows |
| `ClientRetry.RunClientSession` | crates/duocb-core/src/net/runtime.rs:848-992 | The retry loop is the state machine, event for event |
| `ClientRetry.GivesUpExactlyWhen` | crates/duocb-core/src/net/runtime.rs:956-985 | A session gives up exactly on its ninth miss in a row after a connection (the tenth failure with the drop), and never before a first one |
| `ClientRetry.EndsExactlyWhen` | crates/duocb-core/src/net/runtime.rs:848-992 | Why a session ends on a round, each way exactly when: it dialed itself, authentication failed, it gave up, or the user cancelled - in the round, or in the sleep after one that would be retried |
| `ClientRetry.AnnouncementsMatchRounds` | crates/duocb-core/src/net/runtime.rs:903-929 | Over any script every connection is announced once when made and once when lost, in that order, and nothing else is |
| `ClientRetry.RoundOpensWith` | crates/duocb-core/src/net/runtime.rs:855-870 | A round opens as waiting for the peer until a first connection, and as resolving it again after |
| `ClientRetry.EndsSayingWhy` | crates/duocb-core/src/net/runtime.rs:848-992 | A session that ends by its own doing says why and goes idle, last thing; a cancelled one reports no error |
| `ClientRetry.NineMissesEnd` | crates/duocb-core/src/net/runtime.rs:974-985 | No session survives nine rounds without a connection once connected |
| `ClientRetry.WhileLooking` | crates/duocb-core/src/net/runtime.rs:848-852 | What the attempt count and the connected flag mean in every round of a session that is looking |
| `ClientRetry.ShownAttemptsAreInRange` | crates/duocb-core/src/net/runtime.rs:984-987 | Every attempt number shown is 1 to 9, of 10 |
| `ClientRetry.LongPollExactlyWhen` | crates/duocb-core/src/net/runtime.rs:956-972 | The long poll is slept exactly from the tenth round of a session that never connected |
| `ClientRetry.MissesLowerTheMeasure` | crates/duocb-core/src/net/runtime.rs:974-992 | Between connections every round lowers a measure |
| `HostingPublisher.RunHostingPublisher` | crates/duocb-core/src/net/runtime.rs:1484-1602 | The publisher loop over real registrations is the state machine |
| `HostingPublisher.HostingPublisher.Turn` | crates/duocb-core/src/net/runtime.rs:1497-1596 | One round, with the old registration withdrawn before the new one goes up |
| `HostingPublisher.OneTrueAdvertisement` | crates/duocb-core/src/net/runtime.rs:1516-1562 | At the end of every round at most one registration stands, carrying exactly that round's addresses sorted; the note and the registration are there together; none stands for a card outside its window |
| `HostingPublisher.RoundEnds` | crates/duocb-core/src/net/runtime.rs:1526-1562 | And one does stand after every live round whose advertising the channel takes |
| `HostingPublisher.StandsExactlyWhen` | crates/duocb-core/src/net/runtime.rs:1516-1562 | After a round one stands if and only if the session is not relay-only, the card is live, and the channel takes the record or carries these very addresses already |
| `HostingPublisher.OutageReportedOnce` | crates/duocb-core/src/net/runtime.rs:1588-1595 | The no-channel error is made exactly once per run of unpublished live rounds, whatever lapses in between |
| `HostingPublisher.WrongClockReportedOnce` | crates/duocb-core/src/net/runtime.rs:1499-1512 | The not-yet-valid warning is made exactly once, in the first round that finds the card so |
| `HostingPublisher.SortSorts` | crates/duocb-core/src/net/runtime.rs:1531-1533 | The addresses compared and advertised are a sorted permutation |
| `Identity.SplitUndoesDisplay` | crates/duocb-core/src/identity.rs:50-67 | Splitting undoes displaying for exactly the allowed names and suffixes |
| `Identity.DisplayUndoesSplit` | crates/duocb-core/src/identity.rs:55-67 | What splits displays as what it was |
| `Cards.MintedCardsParse` | crates/duocb-core/src/auth.rs:178-202 | Minting works exactly for allowed names and suffixes, sizes and times; the card then parses back, names its owner and lasts the month |
| `Cards.AcceptedExactlyWhenWellSigned` | crates/duocb-core/src/auth.rs:263-309 | An event is accepted as a card if and only if it is, field for field, what the key it names signs for a permitted name and window: nothing forged, altered, of another kind or version, or at odds with its envelope |
| `Cards.FullMonthCardsAreMinted` | crates/duocb-core/src/auth.rs:263-309 | One that lasts the full month is exactly what its key mints |
| `Cards.CardsQuoteTheirEvent` | crates/duocb-core/src/auth.rs:263-309 | A parsed card says what its signed event says |
| `Cards.WindowEdges` | crates/duocb-core/src/auth.rs:377-407 | A card is honoured from five minutes before its start to its end; it has life left exactly then, as much as is left to its end; it is not yet valid exactly before |
| `Cards.HonouredForAMonthAtMost` | crates/duocb-core/src/auth.rs:286-300 | No reader honours a card at two moments a month and five minutes apart, however fast its issuer's clock |
| `Config.Load` | crates/duocb/src/config.rs:170-259 | Loading succeeds exactly on acceptable settings and returns them unchanged; a missing file is a first launch; every error is reported exactly when it is the first thing wrong |
| `Config.CheckPeers` | crates/duocb/src/config.rs:234-257 | The peer loop reports the first offending entry |
| `Config.NoneIsBad` | crates/duocb/src/config.rs:241-257 | It finds none exactly when the entries are cards of other devices, no two of the same |
| `Config.FirstOffenceIsReported` | crates/duocb/src/config.rs:241-257 | What it finds is the first entry that is not a card of another device not seen before, named for what it is: no card, this device's own, or one seen before |
| `Config.ConfigLock.Save` | crates/duocb/src/config.rs:269-285 | The save makes exactly the specified calls and stops at the first that fails |
| `Config.ConfigLock.Reset` | crates/duocb/src/config.rs:297-316 | So does the reset |
| `Config.CrashDuringSave` | crates/duocb/src/config.rs:269-285 | After a crash at any call of a save the config is the old file or the whole new one, and the new one never without its credential |
| `Config.SaveReports` | crates/duocb/src/config.rs:269-285 | Reported success means both halves are new; reported failure means the config is untouched |
| `Config.OldOrNew` | crates/duocb/src/config.rs:261-285 | With the key unchanged the next start finds exactly the old state or the new settings |
| `Config.OldOrNewOrHybrid` | crates/duocb/src/config.rs:261-285 | With a new identity there is one more possibility, the old file under the new key |
| `Config.HybridHappens` | crates/duocb/src/config.rs:269-270 | A crash that leaves it |
| `Config.HybridStartsExactlyWhen` | crates/duocb/src/config.rs:203-257 | It starts exactly when the old identity was unnamed and the new key is not a peer; otherwise it is a startup error |
| `Config.CrashDuringReset` | crates/duocb/src/config.rs:297-316 | After a crash at any call of a reset the config is old, absent or whole and fresh with its credential, and the old file is in place or moved aside |
| `Config.ResetReports` | crates/duocb/src/config.rs:297-316 | Reported success means both halves are fresh and the old file, if any, is kept aside; a failed reset changed nothing or only moved the old file |
| `Config.ResetStarts` | crates/duocb/src/config.rs:297-316 | A reset never leaves an old file under a new key |
| `App.EverythingPersistedReloads` | crates/duocb/src/app/mod.rs:595-611 | After any operations with saves failing in any way the trust in memory is whole, and what a successful save left is accepted by the loader and read back unchanged |
| `App.WholeStatesReload` | crates/duocb/src/app/mod.rs:243-322 | Every whole trust state is written as acceptable settings and read back as itself |
| `App.AcceptedSettingsStart` | crates/duocb/src/app/mod.rs:249-273 | Starting drops nothing the loader let through |
| `App.StartsWhole` | crates/duocb/src/app/mod.rs:243-322 | The app starts whole, and knows whether its disk is up to date |
| `App.RunKeepsInv` | crates/duocb/src/app/mod.rs:595-800 | Name and card go together and match the key; peers are unique, not self and at most 128, over any operations |
| `App.RenewedCardHasLife` | crates/duocb/src/app/mod.rs:332-353 | After a renewal the card has over a week left |
| `App.WithPeerIs` | crates/duocb/src/app/mod.rs:759-784 | Storing a card replaces its owner's and touches no other |
| `App.WithoutIs` | crates/duocb/src/app/mod.rs:786-789 | Removing a device removes it and nothing else |
| `App.OperationsSave` | crates/duocb/src/app/mod.rs:595-800 | Every operation but generating an identity leaves the disk up to date if its save goes through |
| `App.TrustedCardsAreSigned` | crates/duocb/src/app/mod.rs:595-800 | Over any operations every trusted peer's card and the device's own has a verifying event, well signed by that very key |
| `App.NewIdentityForgetsTheOld` | crates/duocb/src/app/mod.rs:613-678 | Generating, importing and resetting each end with exactly the new key, no name, card or peer, and the old suffix; text that is no key changes nothing |
| `App.NamingMintsACard` | crates/duocb/src/app/mod.rs:644-657 | Naming succeeds exactly for a valid trimmed name, and changes the name and card alone: a card for that name under the current key with its whole month ahead |
| `App.TrimIs` | crates/duocb/src/app/mod.rs:644-657 | Trimming takes off both ends all the whitespace there is and nothing else |
| `App.RenewingReplacesAStaleCard` | crates/duocb/src/app/mod.rs:332-353 | Renewing happens exactly to a card with a week or less left, and changes the card alone |
| `App.AddingIsAllowedExactlyWhen` | crates/duocb/src/app/mod.rs:743-784 | A pasted card is stored exactly when it parses, names another device, is in its window, and is known or within the limit |
| `App.AddingStoresOneDevice` | crates/duocb/src/app/mod.rs:759-784 | Storing replaces its owner's card in place or adds it at the end; every other device keeps its card and place, and nothing else changes |
| `App.RemovingForgetsOneDevice` | crates/duocb/src/app/mod.rs:786-800 | Removing a device does nothing exactly when it is not there, and otherwise forgets that device's card and no other, nothing else changed |
| `App.RemovingKeepsOrder` | crates/duocb/src/app/mod.rs:786-800 | The devices left keep their order |
| `App.DesktopApp.constructor` | crates/duocb/src/app/mod.rs:243-322 | Starting restores the settings, then renews a stale card |
| `App.DesktopApp.SaveConfig` | crates/duocb/src/app/mod.rs:595-611 | Saving writes exactly the current trust |
| `App.DesktopApp.BeginGenerateIdentity` | crates/duocb/src/app/mod.rs:613-620 | A new identity forgets name, card and peers, and is not saved yet |
| `App.DesktopApp.UseImportedIdentity` | crates/duocb/src/app/mod.rs:622-632 | An imported one does too, and is saved |
| `App.DesktopApp.SaveName` | crates/duocb/src/app/mod.rs:644-657 | A valid trimmed name mints its card; name and card change together |
| `App.DesktopApp.RenewSelfCardIfStale` | crates/duocb/src/app/mod.rs:332-353 | A card with a week or less left is minted afresh |
| `App.DesktopApp.ResetIdentity` | crates/duocb/src/app/mod.rs:667-678 | A reset forgets everything but the suffix |
| `App.DesktopApp.ImportPeerCard` | crates/duocb/src/app/mod.rs:743-750 | A pasted card is stored exactly when it parses, its signature included, and may be stored |
| `App.DesktopApp.StorePeerCard` | crates/duocb/src/app/mod.rs:759-784 | It may exactly when it is another device's, in its window, and known or within the limit |
| `App.DesktopApp.RemovePeer` | crates/duocb/src/app/mod.rs:786-800 | Removing saves exactly when something was removed, as `App.RemovingForgetsOneDevice` says |
| `Lifetime.NothingIsEverTorn` | crates/duocb/src/config.rs:261-316 | Over any life of an installation (starts, operations with failing saves, recoveries, crashes inside any system call) the config is never torn and never without a key in the store, and a running app's trust is whole and on disk whenever its last save went through |
| `Lifetime.StartFailsExactlyWhen` | crates/duocb/src/config.rs:170-285 | A start fails exactly when a save for a new identity was cut off between its halves and the old file was named or trusts the new key |
| `Lifetime.KeepingTheIdentityKeepsStarting` | crates/duocb/src/config.rs:261-285 | An installation whose saves are all under one key always starts |
| `Lifetime.LifeKeepsInv` | crates/duocb/src/config.rs:261-316 | The config file is always good under the key it was saved under |
| `PinText.ComputeCheckChar` | crates/duocb-core/src/pin.rs:100-107 | The loop computes the weighted check character |
| `PinText.NormalizePin` | crates/duocb-core/src/pin.rs:128-157 | The loop, which gives up early, answers what scanning the whole input would |
| `PinText.NormalizesAscii` | crates/duocb-core/src/pin.rs:128-157 | For ASCII input: accepted exactly when what is left after dropping separators and mapping look-alikes is canonical, and that is the answer |
| `PinText.TypedAlikeReadsAlike` | crates/duocb-core/src/pin.rs:128-157 | On every input, letter case, the look-alikes of one and zero, and spaces, dashes and tabs anywhere make no difference to what is accepted |
| `PinText.AlphabetIs` | crates/duocb-core/src/pin.rs:47 | The alphabet is the digits and capital letters but I, L, O and U, in order |
| `PinText.AcceptedIsCanonicalExactlyWhenAscii` | crates/duocb-core/src/pin.rs:128-157 | An accepted PIN is canonical and its own normal form exactly when the input was ASCII |
| `PinText.ForeignCharactersCanPass` | crates/duocb-core/src/pin.rs:141 | The cast to a byte lets a non-ASCII input through |
| `PinText.SanitizingTwiceIsOnce` | crates/duocb-core/src/pin.rs:180-192 | Sanitizing is idempotent on every input |
| `PinText.GeneratePin` | crates/duocb-core/src/pin.rs:112-122 | Generated PINs are canonical, each data character decided by its own random byte |
| `PinText.ShownPinTypesBack` | crates/duocb-core/src/pin.rs:162-168 | Every canonical PIN survives formatting then normalizing |
| `PinText.SubstitutionPassesExactlyWhen` | crates/duocb-core/src/pin.rs:100-107 | A substituted data character at index i passes if and only if the difference times i+1 is a multiple of 32 |
| `PinText.SwapPassesExactlyWhen` | crates/duocb-core/src/pin.rs:100-107 | Two swapped data characters pass if and only if difference times distance is a multiple of 32 |
| `PinText.OddWeightTypoCaught` | crates/duocb-core/src/pin.rs:100-107 | Every substitution at an odd weight is rejected |
| `PinText.NeighbourSwapCaught` | crates/duocb-core/src/pin.rs:100-107 | Every swap of unequal neighbours is rejected |
| `PinText.CheckDigitTypoCaught` | crates/duocb-core/src/pin.rs:152-155 | Every change of the check digit itself is rejected |
| `PinText.EvenWeightsMiss` | crates/duocb-core/src/pin.rs:94-99 | An undetected substitution at an even weight |
| `PinText.PastedCodeIsKept` | crates/duocb-core/src/pin.rs:206-214 | A code pasted into the first field survives splitting and joining exactly when it has at most eight characters; two fields keep their own first four; splitting is idempotent |
| `Rotation.FoundExactlyWhen` | crates/duocb-core/src/pin_record.rs:42-51 | A PIN is found exactly when the two clocks' buckets are at most one apart |
| `Rotation.FoundByAge` | crates/duocb-core/src/pin.rs:218-224 | Always within 60 seconds, never from 120, and in between exactly when the earlier clock was early enough in its minute |
| `Lan.PushTxt` | crates/duocb-core/src/lan/dnssd.rs:583-594 | An attribute is appended with its length, and refused exactly past 255 bytes |
| `Lan.PushAll` | crates/duocb-core/src/lan/dnssd.rs:583-594 | A record is built exactly when every attribute fits |
| `Lan.ParseTxt` | crates/duocb-core/src/lan/dnssd.rs:822-839 | The loop reads entries up to an empty or cut-short one, passing over what is not text or has no equals sign |
| `Lan.EntriesReadInTurn` | crates/duocb-core/src/lan/dnssd.rs:822-839 | Each entry in turn changes nothing if it is not UTF-8 or has no equals sign, and otherwise sets exactly its own key, over an earlier value |
| `Lan.SplitsExactlyAtEquals` | crates/duocb-core/src/lan/dnssd.rs:834-836 | An entry splits exactly when it has an equals sign, at the first |
| `Lan.CutShortEntriesEndTheRecord` | crates/duocb-core/src/lan/dnssd.rs:822-832 | An empty or cut-short entry ends the record |
| `Lan.SplitsAtItsOwnEquals` | crates/duocb-core/src/lan/dnssd.rs:834-836 | An entry comes apart where it was put together exactly when its key has no equals sign |
| `Lan.TxtRoundTrip` | crates/duocb-core/src/lan/dnssd.rs:583-594 | Attributes with distinct keys free of equals signs read back as exactly the map they name (RFC 6763, section 6) |
| `Lan.PortsRoundTripExactlyWhen` | crates/duocb-core/src/lan/mod.rs:266-288 | Any non-empty address list is rebuilt as it was if and only if each family has one port and no address is in fe80::/10 |
| `Lan.AssembledOneByOne` | crates/duocb-core/src/lan/mod.rs:276-288 | On any addresses and ports, each address gives nothing if it is link-local and one address otherwise, whatever surrounds it, in order |
| `Lan.LinkLocalIs` | crates/duocb-core/src/lan/mod.rs:281 | The mask is the range fe80 to febf |
| `Rendezvous.KeysSettleTheRendezvous` | crates/duocb-core/src/hosting_record.rs:73-99 | Of two distinct keys exactly one side announces and exactly the other searches, for that very label |
| `Rendezvous.LowerKeyHosts` | crates/duocb-core/src/net/mod.rs:107-113 | The one that hosts is the one whose key is lower at the first byte that differs, and the pairing code leads with its fingerprint |
| `Rendezvous.LookupFindsOnlyItsPair` | crates/duocb-core/src/lan/mod.rs:185-217 | Among any finite set of devices whose pairs' digests do not collide where labels are made, a lookup finds exactly its own pair's announcement |
| `Rendezvous.LookupFindsItsPairOrACollision` | crates/duocb-core/src/lan/mod.rs:185-217 | For any hash with 32-byte digests: an announcement answers a dialer's lookup if and only if it is its own host's for it, or that of a host whose pair's digest collides with theirs |
| `Rendezvous.TwoDevicesNeedNotCollide` | crates/duocb-core/src/hosting_record.rs:73-99 | There is a 32-byte hash under which two devices' pairs do not collide |
| `Rendezvous.OneCodeForBoth` | crates/duocb-core/src/auth.rs:100-108 | Both screens show one pairing code, refused exactly for equal keys |
| `Rendezvous.CodeShowsBothFingerprints` | crates/duocb-core/src/auth.rs:84-108 | Two pairing codes agree only where both fingerprints do |
| `Rendezvous.ChannelsMeetExactlyWhen` | crates/duocb-core/src/net/mod.rs:63-74 | Host and dialer share a channel unless one is local-only and the other relay-only |
| `Ffi.WriteCstr` | crates/duocb-ffi/src/lib.rs:1387-1403 | The copied prefix, a NUL, nothing past it; true exactly when all of it was copied |
| `Ffi.WritesLongestWholePrefix` | crates/duocb-ffi/src/lib.rs:1394-1398 | The prefix is the longest run of whole characters that leaves room for the NUL, all of the text exactly when it fits |
| `Ffi.EventHandle.TakeEvent` | crates/duocb-ffi/src/lib.rs:144-150 | The retained event comes first, then the queue |
| `Ffi.EventHandle.NextEvent` | crates/duocb-ffi/src/lib.rs:1110-1131 | The return code, the buffer and what stays held, for every buffer |
| `Ffi.Poll` | crates/duocb-ffi/src/lib.rs:1110-1131 | A sequential poller reads out of its buffers exactly what the specification hands out |
| `Ffi.ExactlyOnceInOrder` | crates/duocb-ffi/src/lib.rs:144-156 | For any arrivals and buffer sizes, what was handed out followed by what is held is what arrived |
| `Ffi.BigEnoughBufferGetsIt` | crates/duocb-ffi/src/lib.rs:1124-1130 | The next event is handed out exactly to a buffer with room for it and its NUL |

## Left out

- Clipboard.ResumeConverges: does not follow the user pressing Clear, a session restart (which empties the last-sent slot), or the app moving its boxes to another peer; the runtime's events carry no session tag, so per-peer boxes need the event queue drained first.
- Clipboard.ResumeConverges: the inbox is updated in the step that reads a frame; the event queue between the runtime and the app is not a separate channel.
- The outbox and its pending text: any error event clears the pending text, so no claim that the outbox equals what was confirmed is made.
- CardExchange.ClosingLosesNothing: covers runs in which neither end's deadline expires; runs with deadlines and crashes are covered by `CardExchange.EndOfStreamProvesDelivery`.
- CardExchange: a card that does not parse is the `Failed` outcome of an end, not a separate step; a peer that writes past its card is not one of the two ends modelled, so the drain's full outcome is a step no run reaches.
- KeyAgreement.ListenerAgreement: assumes nonces are never drawn twice and honest signatures are not forged; it says nothing about keys whose holder is not honest.
- PinAuth.Handshake: both ends follow the protocol over a network that delivers; guessing bounds and a dishonest end are matters of SPAKE2 itself.
- PinAuth: base64 text of messages is left out; a message that does not decode is `Malformed`.
- PinHost.RunPublisher: what wakes a turn, and whether a peer has paired by the next, is the turn's own; the relay record and the manual-IP listener are left out, and with them the two error messages about publishing nowhere; local advertisements are kept as their PINs.
- CardSetupHost: answering latecomers after a completed exchange only refuses them, and is left out; so is the joiner, a straight line of steps.
- ServeLoop.RunServerSession: endpoint creation, the connection slot for path queries and the log are left out; a cancel and a new connection seen by the same select are taken in script order.
- SessionMemory.Runtime.PublishPins: one whole run of the publisher between two commands; its turns interleaved with other events are the `TaskPins` events of a history.
- SessionMemory.NetMain: a task commits its claim only between the commands that start and stop it; the three-second bound on stopping is not timed.
- ClientRetry.RunClientSession: starts after the check of the peer's own card and the endpoint creation, two early returns before the loop.
- HostingPublisher: the relay record itself, and the channel errors, are the round's `relayTakes` and `lanTakes`.
- Cards: JSON and Schnorr are ideal, a card's text is its event; the length of its encoding is an input.
- Config.CrashDuringSave, and with it Lifetime.NothingIsEverTorn: assumes atomic and ordered renames and a credential store that keeps what it accepted; directory flushing and the lock file are left out.
- App.EverythingPersistedReloads: covers identity, name, card and peers; screens, selection, the boxes and the clipboard are left out.
- Messages: only the bodies whose length decides something are spelled out, and only their strings and numbers are read back; whole-body parsing is an abstract codec with the one law that decoding undoes encoding.
- Lan.PortsRoundTripExactlyWhen: addresses are resolved in the order they were advertised; the decimal text of the IPv6 port is left out.
- Ffi: pointers are arrays with a length; JNI and argument conversion are left out.
- Key derivation (Argon2id), NIP-44, the relay client, the mDNS daemon, iroh and the UI are libraries or plumbing with nothing to prove here.
