# Verified model of the mesh messenger

This project models two parts of the messenger and proves what they keep.

**The LoRa mesh firmware** (`firmware/src`): the byte codec with its authenticated header, the duplicate cache on a
wrapping 32-bit clock, the routing engine, the 32-message store, identity and key cached over EEPROM, the screens, the
buttons and the boot / set-up / idle / panic machine. One node is a set of classes with arrays and mutable fields
(`DedupRing`, `MeshEngine`, `MsgStore`, `Storage`, `DeviceIdentity`, `UserInterface`, `ButtonPad`, `Firmware`); each
method is proved against a function or predicate on values. The network of N nodes is a transition system over the same
values: frame copies in flight, and the steps deliver, lose, send, purge and wait in any order. Theorems about it hold for
every run. What `Firmware.Loop` is proved to do in each pass refines it: any interleaving of its passes on any number of
devices in service, with any button events but the panic hold, of redraws, of losses and of time is such a run
(`Fleet.LoopsAreRun`).

**The in-memory guards of the server and the edge** (`apps/server/src`, `apps/web/src`): rate limiters, session table,
threat scoring and shared links. Each is a class over maps; theorems hold for every sequence of calls, with the clock
reading an input of each call.

## Files, from the bottom up

| file | contents |
|---|---|
| `Words.dfy` | bytes, little-endian words, `Option` |
| `Packet.dfy` | module `Packets`: frames, codec, round trips |
| `Dedup.dfy` | the duplicate cache and the log it refines |
| `Mesh.dfy`, `TextMessages.dfy` | routing engine; sealing and opening over an abstract cipher |
| `Network.dfy` | N nodes as a transition system |
| `Quiescence.dfy`, `HopRadius.dfy`, `TransmissionBound.dfy`, `FloodRounds.dfy`, `Acknowledgements.dfy` | theorems about all its runs |
| `MessageStore.dfy`, `StoreLaws.dfy` | the message array; its laws |
| `Identity.dfy`, `Ui.dfy`, `DeviceLife.dfy`, `Buttons.dfy`, `Firmware.dfy` | one device: EEPROM, screens, state machine, buttons, main loop |
| `Startup.dfy`, `Journeys.dfy` | how a device comes into use; ways through its screens |
| `Refinement.dfy` | messaging passes of one and of many devices as runs of the network |
| `Fleet.dfy` | passes of the whole main loop of many devices as runs of the network |
| `Delivery.dfy` | texts from end to end: typed, queued, sealed, opened, stored |
| `RateLimits.dfy`, `Sessions.dfy`, `Threats.dfy`, `ShareLinks.dfy` | the guards |

`dafny verify dfyconfig.toml` checks everything.

## Where the code and its description differ

The model follows the code. These differences came out of the proofs:

- Nothing advances `retries` or `next_retry` (`firmware/src/state_machine.cpp:154-159`), so no bound of three retries
  holds: a queued message goes out again on every tick until it expires (`StoreLaws.QueuedUntilExpiry`).
- A text goes out under a random identifier (`firmware/src/state_machine.cpp:48`) and is stored under a counter
  (`firmware/src/message_store.cpp:75`); an acknowledgement marks the first outgoing message whose *counter* equals the
  random identifier (`Firmware.Firmware.HandleAck`, `Firmware.AckMarks`).
- The factory-reset screen wipes nothing (`DeviceLife.WipeMenuNeverWipes`).
- A panic clears nothing of the interface: the buffer in which the PIN was typed still holds it, and so gives the erased
  key, if it was typed since the last power-up (or is 0000), until the next power-up or the press on the welcome screen;
  the composed text stays even longer (`DeviceLife.PanicLeavesPinIff`, `DeviceLife.PinLeftByPanic`,
  `DeviceLife.KeptUntilReset`).
- After a power-up whose radio fails to start, at the first or at any later one, one press reaches normal use with an
  all-zero key (`DeviceLife.IdleHasKeyIffRadio`, `DeviceLife.KeylessReachableIff`). So a panic keeps the device out of use
  only as long as the radio starts at the next power-up: otherwise the erased device is used without a PIN
  (`DeviceLife.PanicIsFinal`, `DeviceLife.FailingRadioAfterPanic`).
- The panic timer takes the clock reading 0 for "not started", so a hold that begins at that reading counts from the next
  reading (`Buttons.PanicExactly`).
- The press that wakes the display is handled like any other: waking clears the off flag before it is looked at
  (`firmware/src/ui.cpp:745-756`).
- `get_device_id` on an erased EEPROM answers the broadcast address, not 0 (`Identity.ErasedId`).
- A cache entry stamped at clock reading 0 is never purged, by any number of ticks, and its key is taken for a duplicate in
  the first minute of every later lap of the clock (`Dedup.ZeroStampReturns`, `Dedup.TicksExactly`); the exact answer of
  the cache for all keys and times is `Dedup.DuplicateExactly`.
- Two ticks of the store are not quite one: a burn message that was burnt first loses its text, one that only expired keeps
  it (`StoreLaws.TickCoalesces`, `StoreLaws.BurnThenExpireDiffers`).
- The limiters pass up to twice their limit less one in a window length, and that is reached
  (`RateLimits.SlidingBound`, `RateLimits.BoundReached`).
- A session with an empty token that is a user's oldest is not evicted, so the user can hold any number of sessions
  (`Sessions.RegisterCappedIff`, `Sessions.EmptyTokenRun`, `Sessions.UncappedRun`). The server's own tokens are UUIDs
  (`apps/server/src/utils/jwt.ts:15-19`) and nothing in the repository calls `registerSession`, so only a new caller could
  pass an empty one.
- A quarantine that ran out without a check in between turns the next block into a release
  (`Threats.BlockDeniedIff`, `Threats.BlockLostAfterQuarantine`); and while an earlier quarantine's time is still stored, a
  block lasts no longer than it (`Threats.LastReportDecides`). Decay lowers scores but never lifts a block; only deleting
  the record does (`Threats.BlockHolds`).
- The cleanup of links changes no grant, no list and no creation, but it changes revocation: the creator of a link it took
  is told there is none (`ShareLinks.CleanupInvisible`, `ShareLinks.SweepEndsRevocation`).
- At its expiry instant a link no longer counts for the tier limit but still opens (`ShareLinks.ExpiryInstant`).

## Model

| member | source | states |
|---|---|---|
| Words.LittleEndian | firmware/src/packet.cpp:7-28 | both word sizes are written and read least significant byte first |
| Packets.Encode | firmware/src/packet.cpp:30-49 | the buffer holds the frame and its length is returned exactly when payload and frame fit, also where the 16-bit total wraps; bytes beyond stay, nothing outside the buffer is written |
| Packets.Decode | firmware/src/packet.cpp:51-81 | a frame is accepted, and into which packet, exactly as `Parse` says; no read leaves the given length |
| Packets.BuildAad | firmware/src/packet.cpp:83-91 | the authenticated header is version, type, sender, destination and identifier in wire order |
| Packets.WireLayout | firmware/src/packet.cpp:30-49 | where every field of a frame lies, byte by byte |
| Packets.ParseExactly | firmware/src/packet.cpp:51-81 | a buffer is accepted if and only if it has 46 bytes, version 1, a payload length up to 200 and that many bytes, and each field is read at its place |
| Packets.ParseWire | firmware/src/packet.cpp:30-81 | decoding an encoded packet succeeds exactly for version 1 and gives back every field and the payload |
| Packets.WireParse | firmware/src/packet.cpp:30-81 | re-encoding an accepted buffer gives its first 46 + payload length bytes |
| Packets.WithRelayedBits | firmware/src/mesh.cpp:47-48 | setting the relay flag sets that bit, keeps all others and is idempotent |
| Packets.IdToHex | firmware/src/packet.cpp:97-104 | the eight characters read back as hexadecimal give the identifier, then NUL |
| Dedup.DedupRing.IsDuplicate | firmware/src/mesh.cpp:23-33 | scans the ring with unsigned clock differences |
| Dedup.DedupRing.Add | firmware/src/mesh.cpp:36-41 | overwrites the slot at the head and advances it modulo 64 |
| Dedup.DedupRing.Tick | firmware/src/mesh.cpp:126-137 | clears exactly the stamped entries over a minute old |
| Dedup.RunTracks | firmware/src/mesh.cpp:23-41 | after any interleaving of additions, purges and waiting the ring stands for the log of all additions |
| Dedup.FreshIsDuplicate | firmware/src/mesh.cpp:23-41 | a key among the last 64 additions and under a minute old is always reported, for every key, at any time, across clock wrap |
| Dedup.DuplicateExactly | firmware/src/mesh.cpp:23-33 | the exact answer for all keys and times: recently seen, or a whole lap of the clock old, or the all-zero key against a free slot |
| Dedup.DuplicateIffRecentlySeen | firmware/src/mesh.cpp:23-41 | for keys other than (0,0) and no entry a lap old: reported if and only if one of the last 64 additions had the key under 60,000 ms ago |
| Dedup.TickInvisible | firmware/src/mesh.cpp:126-137 | a single purge changes no answer now or later |
| Dedup.TicksInvisible | firmware/src/mesh.cpp:126-137 | leaving all purges out of a run changes no answer at any moment of it, while none of the last 64 additions is a lap old |
| Dedup.TicksExactly | firmware/src/mesh.cpp:126-137 | over every history that purges at least once a lap less a minute, the exact answer: recently seen, or one of the last 64 additions had the key, was stamped 0 and some later lap is in its first minute |
| Dedup.TicksKeepExact | firmware/src/mesh.cpp:126-137 | purging at least once a lap less a minute, with no addition at reading 0, keeps the cache exact in every reachable history |
| Dedup.TickKeepsYoung | firmware/src/mesh.cpp:126-137 | a purge keeps the age condition for almost a whole lap, provided no addition was stamped 0 |
| Dedup.ZeroStampReturns | firmware/src/mesh.cpp:126-137 | after one addition at reading 0 and any number of purges the key is reported exactly in the first minute of each lap |
| Dedup.LapFalseDuplicate | firmware/src/mesh.cpp:126-137 | so a lap after an addition made a lap after boot it is a false duplicate, however often the cache was purged |
| Mesh.MeshEngine.RelayPacket | firmware/src/mesh.cpp:44-59 | ttl 0 is not relayed; otherwise ttl drops by one, the relay flag is set and exactly that frame goes out |
| Mesh.MeshEngine.ProcessIncoming | firmware/src/mesh.cpp:68-107 | cache, counters, relayed frame and packet handed up for every frame: malformed, own, duplicate, bad ttl, accepted |
| Mesh.HandledExactly | firmware/src/mesh.cpp:68-107 | the fate of a frame read off its bytes: refused, cached, relayed with ttl one less and the relay bit set and every other byte the same, handed up to the addressee or, if broadcast, to everyone; what counts as dropped |
| Mesh.MeshEngine.SendPacket | firmware/src/mesh.cpp:109-124 | stamps version, sender and ttl 3, caches its own key and puts that frame on the air |
| TextMessages.SealedExactly | firmware/src/state_machine.cpp:40-68 | a text is sealed exactly when it fits the payload; ciphertext and tag are those for its header |
| TextMessages.SealedBytes | firmware/src/state_machine.cpp:40-68 | the frame of a text byte by byte: addresses, ttl 3, encryption bit, nonce, length, then the text sealed with the frame's first fourteen bytes |
| TextMessages.SealedTextOpens | firmware/src/state_machine.cpp:40-93 | after any number of relays, into any receive buffer, a sealed text opens under its key if and only if it has at most 160 bytes, and then to the sender's text |
| Network.StepGrows | firmware/src/mesh.cpp:68-124 | no step of the network changes an identity or key or takes back history |
| Quiescence.StepLightens | firmware/src/mesh.cpp:44-59 | every delivery and every loss strictly lowers the weight of the copies in flight, acknowledgements included |
| Quiescence.FloodDiesOut | firmware/src/mesh.cpp:88-99 | without user sends at most as many deliveries and losses happen as the air weighs, in any order, with any cache contents; then the air is empty |
| Quiescence.DrainingRun | firmware/src/state_machine.cpp:99-109 | from every state some run of deliveries empties the air |
| HopRadius.RunOk | firmware/src/mesh.cpp:44-59 | in every reachable network each copy and receipt is the originator's packet after the relays on its path |
| HopRadius.HopBudget | firmware/src/mesh.cpp:44-51 | ttl + relays = 3 on every copy, relay flag exactly when relayed or set by the sender, everything else unchanged, so the header to be authenticated too |
| HopRadius.HopRadiusBound | firmware/src/mesh.cpp:88-114 | no node more than four hops from the originator ever accepts a packet |
| HopRadius.TextArrivesIntact | firmware/src/state_machine.cpp:71-93 | over every run an addressee with the sender's key opens exactly the sender's text, or nothing if that is over 160 bytes, and only addressees are handed anything |
| TransmissionBound.RunTracks | firmware/src/mesh.cpp:23-41 | over every network run each node's ring stands for its log |
| TransmissionBound.CachedIsDuplicate | firmware/src/mesh.cpp:75-83 | in a run under a minute with at most 64 additions a cached key is a duplicate |
| TransmissionBound.SentIsCached | firmware/src/mesh.cpp:85-124 | over every run whoever has sent or relayed a packet has cached its key |
| TransmissionBound.TransmissionsBounded | firmware/src/mesh.cpp:75-124 | in such a run each node accepts and relays a packet at most once, its sender never, and N nodes make at most N transmissions per origination |
| FloodRounds.DeliverKeepsMid | firmware/src/mesh.cpp:68-107 | delivering any copy of a round, in any order, keeps the invariant of the round |
| FloodRounds.LogFits | firmware/src/mesh.cpp:36-41 | one text never overflows a cache if no acknowledgement is asked for, it has one addressee or there are at most 64 nodes |
| FloodRounds.AcceptedIffEvicted | firmware/src/mesh.cpp:23-41 | within a minute a node accepts a copy, also again, if and only if 64 later additions have evicted its key |
| FloodRounds.TextReach | firmware/src/mesh.cpp:44-124 | in lossless rounds from empty caches a text to one addressee or to all is accepted by exactly the nodes within min(rounds, 4) hops, an only addressee not relaying, once each, in the round of the distance d, reading ttl 4 - d, and addressees with the sender's key open the sender's text: for any N without acknowledgements or with one addressee, for N up to 64 otherwise, beyond while no cache takes more than 64 keys |
| FloodRounds.BroadcastReach | firmware/src/mesh.cpp:44-124 | a broadcast is relayed by everyone, so it is accepted by exactly the nodes one to four hops away, as far as the rounds elapsed reach |
| Acknowledgements.AcksExactly | firmware/src/state_machine.cpp:99-109 | over every run the acknowledgements originated are, one for one and in order, the receipts of texts that opened and asked for one, each addressed to the device that sent the text and naming its identifier, with ttl 3, no flags and no payload |
| Acknowledgements.AckReachesSender | firmware/src/state_machine.cpp:99-109 | wherever an acknowledgement is accepted it answers a text its sender received, and it is handed up at the node that sent that text and nowhere else |
| MessageStore.MsgStore.FindSlot | firmware/src/message_store.cpp:18-34 | a new slot while there is room, else an expired one, else one of smallest timestamp |
| MessageStore.MsgStore.AddIncoming | firmware/src/message_store.cpp:36-67 | duplicates by sender and identifier are refused; otherwise an unread message goes into that slot, holding exactly the first 160 bytes of the text, then NUL |
| MessageStore.MsgStore.QueueOutgoing | firmware/src/message_store.cpp:69-94 | the message gets the next counter value and that slot and holds exactly the first 160 bytes of the text |
| MessageStore.MsgStore.UnreadCount | firmware/src/message_store.cpp:117-126 | counts the live unread incoming messages |
| MessageStore.MsgStore.GetConversation | firmware/src/message_store.cpp:128-138 | fills the caller's array with the conversation function |
| MessageStore.MsgStore.GetPeers | firmware/src/message_store.cpp:140-156 | fills the caller's array with the peers function |
| MessageStore.MsgStore.Tick | firmware/src/message_store.cpp:158-189 | every used message becomes its ticked form, the rest stay |
| MessageStore.MsgStore.NextPending | firmware/src/message_store.cpp:191-198 | the first outgoing message being sent, or -1 if there is none |
| MessageStore.MsgStore.Purge | firmware/src/message_store.cpp:208-223 | in place, the array becomes the live messages in order and a zeroed tail |
| StoreLaws.Perform | firmware/src/message_store.cpp:18-223 | every method makes the transition of its operation, so laws about runs of operations hold of the class |
| StoreLaws.StepSafe | firmware/src/message_store.cpp:18-223 | every operation keeps the bounds, the terminated texts and the absence of double incoming messages |
| StoreLaws.AlwaysSafe | firmware/src/message_store.cpp:12-223 | the same in every reachable state |
| StoreLaws.TextsKept | firmware/src/message_store.cpp:36-94 | after any operations every stored message is one that was put in: outgoing with the text and addressee queued and numbered in the order of queueing, incoming with the text and sender received unless burnt |
| StoreLaws.IncomingUntilExpiry | firmware/src/message_store.cpp:158-189 | in every reachable state a tick leaves a live incoming message as it is until an hour after its time stamp and then only expires it, except that it burns a read burn message |
| StoreLaws.InsertionEvicts | firmware/src/message_store.cpp:18-34 | inserting only adds to the live messages, unless all 32 are live: then exactly one of smallest timestamp goes |
| StoreLaws.PeersExact | firmware/src/message_store.cpp:140-156 | peers are distinct, never 0 or broadcast, in order of first appearance, none missing unless the list is full |
| StoreLaws.ConversationExact | firmware/src/message_store.cpp:128-138 | exactly the live messages of the conversation in order, none missing unless the list is full |
| StoreLaws.FilterExactly | firmware/src/message_store.cpp:208-223 | compaction keeps, in order, exactly the messages at positions not expired |
| StoreLaws.UnreadExactly | firmware/src/message_store.cpp:117-126 | the unread count is the number of incoming messages neither read nor expired |
| StoreLaws.PurgeKeepsUnread | firmware/src/message_store.cpp:208-223 | compaction keeps the unread count |
| StoreLaws.PurgeKeepsPeers | firmware/src/message_store.cpp:208-223 | compaction keeps the list of peers |
| StoreLaws.PurgeKeepsConversation | firmware/src/message_store.cpp:208-223 | compaction keeps the messages named by each conversation |
| StoreLaws.PurgeKeepsPending | firmware/src/message_store.cpp:208-223 | compaction keeps the message that goes out next |
| StoreLaws.PendingIndex | firmware/src/message_store.cpp:191-198 | what the index returned by the class means as a message |
| StoreLaws.TickCoalesces | firmware/src/message_store.cpp:158-189 | two ticks leave each message in the state of the later one; they differ in the text if and only if a burn fell due before an expiry |
| StoreLaws.TickedTwice | firmware/src/message_store.cpp:158-189 | the same for the whole array; ticking twice at one time is ticking once |
| StoreLaws.TickClears | firmware/src/message_store.cpp:158-189 | after a tick no live message is past its expiry and no read incoming burn message is live |
| StoreLaws.BurnThenExpireDiffers | firmware/src/message_store.cpp:165-175 | a message whose text two ticks clear and one keeps |
| StoreLaws.QueuedUntilExpiry | firmware/src/message_store.cpp:178-187 | in every reachable state a tick hands each queued outgoing message out again until it expires and gives none up |
| Identity.Storage.ReadU32 | firmware/src/storage.cpp:12-19 | the little-endian number stored at the address |
| Identity.Storage.WriteU32 | firmware/src/storage.cpp:21-26 | writes four bytes and no others |
| Identity.Storage.EraseAll | firmware/src/storage.cpp:53-57 | every byte becomes 0xFF |
| Identity.DeviceIdentity.Provision | firmware/src/device_identity.cpp:18-44 | fields written, caches loaded, identifiers 0 and broadcast replaced |
| Identity.DeviceIdentity.Wipe | firmware/src/device_identity.cpp:69-76 | key, PIN and identifier caches zeroed and all bytes erased |
| Identity.ProvisionedFields | firmware/src/device_identity.cpp:18-44 | no two fields overlap and nothing else is touched; magic, identifier, key, counter and PIN are at their addresses, byte by byte |
| Identity.AlwaysCoherent | firmware/src/device_identity.cpp:46-67 | in every reachable state each loaded cache equals its EEPROM bytes |
| Identity.ProvisionLasts | firmware/src/device_identity.cpp:18-67 | after a provision and until the next or a wipe, any lookups and reboots return exactly the key and PIN provisioned and the random identifier, or 65537 where that is reserved |
| Identity.WipeLasts | firmware/src/device_identity.cpp:69-76 | after a wipe the device stays unprovisioned and erased until provisioned again |
| Identity.ErasedId | firmware/src/device_identity.cpp:46-51 | an erased device answers the broadcast address |
| Ui.UserInterface.HandleInput | firmware/src/ui.cpp:745-774 | screen, buffers, selections, identity and store after each button event on each screen |
| Ui.HandledOk | firmware/src/ui.cpp:493-721 | no input leaves the bounds of the PIN and compose buffers or of the selections |
| Ui.ComposedLength | firmware/src/ui.cpp:593-627 | the compose buffer read as a C string has the length kept beside it |
| Ui.ComposedText | firmware/src/ui.cpp:593-627 | after any events on the compose screen the buffer holds exactly the characters chosen and not deleted |
| Ui.UseStaysInUse | firmware/src/ui.cpp:536-703 | from normal use input never leads back to set-up |
| Journeys.CharsetExactly | firmware/include/config.h:96 | the 50 characters offered, in their order |
| Journeys.SelectionWalks | firmware/src/ui.cpp:538-543 | presses up and down in the inbox move the selection within the list and change nothing else |
| Journeys.OpeningReads | firmware/src/ui.cpp:544-555 | opening a conversation marks exactly its live messages read |
| Journeys.ReplyGoesToPeer | firmware/src/ui.cpp:536-627 | moves, a press that opens, a press that answers, a typed text and the long press that confirms send exactly that text to exactly the correspondent chosen |
| Journeys.BroadcastGoesToAll | firmware/src/ui.cpp:557-561 | a long press in the inbox, a typed text and the confirmation send it to everyone |
| Journeys.BackToInbox | firmware/src/ui.cpp:536-703 | from every screen of normal use at most two long presses up lead to the inbox |
| Journeys.ScrollWalks | firmware/src/ui.cpp:573-580 | presses up and down in a conversation scroll it within its messages |
| Journeys.MenusFromInbox | firmware/src/ui.cpp:562-663 | which presses lead from the inbox to network, settings, test and factory reset |
| Journeys.BrightnessCycles | firmware/src/ui.cpp:644-647 | a press on the brightness goes round five levels |
| Startup.ComesUp | firmware/src/state_machine.cpp:166-180 | with a working radio, over any passes without a panic and any redraws, the splash screen stays until the first pass more than 1,500 ms after power-up, which brings a provisioned device to the inbox with its stored key and any other to the welcome screen |
| Startup.InUseIffLate | firmware/src/state_machine.cpp:166-180 | so a provisioned device is in use with its stored key at every boundary from that pass on, and at none before |
| Startup.SetUpEnds | firmware/src/state_machine.cpp:182-191 | confirming a PIN and, however much later, a press on the identifier screen bring the device into use with the key derived from that PIN |
| Startup.SetUpByButtons | firmware/src/ui.cpp:493-534 | from the welcome screen over any presses that set digits to use at the inbox, with the key derived from exactly the digits dialled |
| Startup.ConfirmingReturns | firmware/src/state_machine.cpp:203-226 | the pass that confirms a composed text goes on at the inbox |
| DeviceLife.ApplySound | firmware/src/state_machine.cpp:162-190 | every loop pass, redraw and power cycle, the radio starting or failing, keeps the boot / set-up / idle invariant, or after a failed start the one of the error screen and idle without a key |
| DeviceLife.WholeRun | firmware/src/main.cpp:88-107 | at every loop boundary of every run with any power-ups: if the radio started at the last one or there was a panic since, idle means provisioned with the key loaded and set-up is on the screens it should be; otherwise the device shows the error or is idle without a key |
| DeviceLife.IdleKeys | firmware/src/state_machine.cpp:251-256 | at every idle boundary of such a run machine key = cache = EEPROM key = key derived from a four-digit PIN; otherwise no key is loaded and it is zero |
| DeviceLife.PanicIsFinal | firmware/src/state_machine.cpp:292-301 | after a panic the EEPROM is erased and both keys are zero, and until a PIN is confirmed nothing of the old identity comes back, over any power-ups; the device stays blank and out of use if and only if the radio started at the last power-up since, or there was a panic after it |
| DeviceLife.FailingRadioAfterPanic | firmware/src/main.cpp:48-83 | the erased device, switched on with a failing radio, is in normal use after one press, without a PIN |
| DeviceLife.PinLeftByPanic | firmware/src/state_machine.cpp:292-301 | confirm a PIN, then panic: the typed digits are still in the interface's buffer and give the erased key |
| DeviceLife.PanicLeavesPinIff | firmware/src/ui.cpp:493-523 | after a panic at the end of any run, with any power-ups, of a provisioned device the buffer equals the erased PIN if and only if it was typed since the last power-up or is 0000 |
| DeviceLife.KeptUntilReset | firmware/src/ui.cpp:493-499 | through everything but a power-up or the press on the welcome screen both buffers stay |
| DeviceLife.WipeMenuNeverWipes | firmware/src/ui.cpp:665-683 | in idle no input but a panic changes a stored byte, the key or the state |
| DeviceLife.IdleHasKeyIffRadio | firmware/src/state_machine.cpp:251-256 | over all runs and power-ups, at an idle boundary the device holds the provisioned key if and only if the radio started at the last power-up or there was a panic since |
| DeviceLife.RadioFailureSkipsKey | firmware/src/main.cpp:48-83 | after every run whose last power-up had a failing radio and no panic since, one pass leads to idle without the key |
| DeviceLife.KeylessReachableIff | firmware/src/state_machine.cpp:251-256 | after a run idle without the key can be reached, without another power-up, if and only if the last power-up had a failing radio and no panic followed |
| Buttons.ButtonPad.Poll | firmware/src/button.cpp:31-86 | event and new state of three debounced buttons for every pin reading |
| Buttons.PanicNeedsHold | firmware/src/button.cpp:31-86 | a panic is returned only after polls spanning 3,000 ms in all of which three buttons were pressed |
| Buttons.PanicExactly | firmware/src/button.cpp:73-83 | in a hold of all three buttons, with the next panic in it too, the first poll whose clock is 3,000 ms or more after the hold's first non-zero reading reports a panic, and no earlier one does |
| Buttons.DebouncedExactly | firmware/src/button.cpp:39-45 | a button changes if and only if its pin differs from it and its last change is 30 ms or more ago on the clock |
| Buttons.PressExactly | firmware/src/button.cpp:39-71 | a press fires long at the first poll 800 ms or more after it went down, short at its release unless it has fired long, and nothing else |
| Buttons.PressReported | firmware/src/button.cpp:39-85 | when nothing else fires and there is no panic the poll reports exactly that, under the button's own name |
| Buttons.ReportedExactly | firmware/src/button.cpp:39-85 | without a panic a poll reports the last button that fired |
| Buttons.PressReportedOnce | firmware/src/button.cpp:31-86 | between two reports of a button it went down again: one event per press, short or long |
| Firmware.Firmware.SendTextMessage | firmware/src/state_machine.cpp:40-68 | the frame put on the air is the sealed text's; too long a text sends nothing |
| Firmware.Firmware.HandleTextPacket | firmware/src/state_machine.cpp:71-110 | opened texts are stored, refused ones change nothing, and an acknowledgement is sent exactly when asked for; `Acknowledgements.AcksExactly` says to whom and for what |
| Firmware.Firmware.HandleAck | firmware/src/state_machine.cpp:126-137 | the first outgoing message with that identifier becomes delivered |
| Firmware.AckMarks | firmware/src/state_machine.cpp:126-137 | an acknowledgement marks a message if and only if it is the first outgoing one stored under that identifier |
| Firmware.AckDelivers | firmware/src/state_machine.cpp:126-137 | it makes that message delivered and leaves every other message and the rest of the store as it was |
| Firmware.Firmware.ProcessRadio | firmware/src/state_machine.cpp:113-143 | relay, storage and acknowledgement of one received frame, as in the network model |
| Firmware.Firmware.ProcessOutgoing | firmware/src/state_machine.cpp:146-160 | the first waiting message is sent, or queued again if the radio fails; without one nothing happens |
| Firmware.Firmware.IdleTick | firmware/src/state_machine.cpp:197-226 | an idle pass is radio, queue, both housekeepings, then the composed text, in this order, with the frames sent in between |
| Firmware.Firmware.TakeInput | firmware/src/main.cpp:94-104 | device and store after a panic or a button event; the cache is untouched |
| Firmware.Firmware.Loop | firmware/src/main.cpp:88-107 | every pass makes the transition of the device model, and its frames, cache and messages are those of the state reached from the device and store after input; `Startup`, `DeviceLife`, `Delivery` and `Fleet` say what that amounts to |
| Firmware.SentWhenConfirmed | firmware/src/ui.cpp:608-613 | a composed text leaves exactly in the pass whose press confirms it, and is the text composed |
| Firmware.Firmware.PanicWipe | firmware/src/state_machine.cpp:292-301 | messages, key, identity and EEPROM are wiped and set-up begins |
| Refinement.ReceivedReaches | firmware/src/state_machine.cpp:113-143 | a frame read in the network model gives the node the cache and puts on the air the frames that the mesh outcome and its acknowledgement say |
| Refinement.IdlePassIsRun | firmware/src/state_machine.cpp:197-226 | every idle pass of a device on a node is a run of the network that ends with the device's cache and exactly the device's frames on the air |
| Refinement.SystemIsRun | firmware/src/state_machine.cpp:197-226 | any interleaving of idle passes of N devices, input, losses and time is a run of the network with the same caches and frames in flight |
| Refinement.SystemRadius | firmware/src/mesh.cpp:44-124 | so from a quiet start every frame in flight between real devices is one device's and within 4 - ttl hops of it |
| Fleet.LoopKeepsStation | firmware/src/main.cpp:88-107 | a pass of the loop without a panic leaves a device in service in service, with its identifier and key |
| Fleet.RoundLeads | firmware/src/main.cpp:88-107 | what `Firmware.Loop` ensures of a pass is an input to the store and then a messaging pass of the device's station |
| Fleet.LoopsAreRun | firmware/src/main.cpp:88-107 | any interleaving of loop passes of N devices in service, redraws, losses and time is a run of the network with the same caches and frames in flight |
| Delivery.TextStored | firmware/src/state_machine.cpp:71-98 | over every run an addressee with the sender's key that reads a text for the first time stores one unread message, from that sender under that identifier, with exactly the bytes sealed, unless stored before or over 160 bytes; then nothing changes |
| Delivery.AckStored | firmware/src/state_machine.cpp:126-137 | over every run a device that reads an acknowledgement for it for the first time marks exactly the first outgoing message under that identifier delivered |
| Delivery.QueueSendsComposed | firmware/src/state_machine.cpp:146-160 | over the life of a device whatever leaves its queue, also when sent again, is the frame of a text the user confirmed in an earlier pass, whole, for its addressee |
| Delivery.ResentUntilTaken | firmware/src/state_machine.cpp:146-160 | the first message waiting goes out; it is sent if the radio took it and otherwise waiting again after the same pass, until its hour is over |
| Delivery.ConfirmedGoesOut | firmware/src/state_machine.cpp:203-226 | the last frame of a confirming pass is the composed text sealed for the addressee on the screen, and the store keeps it as sent, or queued when the radio fails |
| Delivery.PanicEmpties | firmware/src/state_machine.cpp:292-301 | after the pass of a panic no message and no byte of a text is left and nothing was sent |
| Firmware.MarkedSafe | firmware/src/ui.cpp:536-571 | marking a conversation read keeps the store safe |
| RateLimits.SocketLimiter.IsSocketRateLimited | apps/server/src/middleware/socketRateLimiter.ts:18-36 | the verdict and the bucket afterwards |
| RateLimits.SocketLimiter.CleanupSocketBuckets | apps/server/src/middleware/socketRateLimiter.ts:41-48 | exactly the stale buckets go |
| RateLimits.EdgeLimiter.CheckRateLimit | apps/web/src/middleware.ts:25-40 | the same counting under the edge limits, and the remaining allowance |
| RateLimits.SlidingBound | apps/server/src/middleware/socketRateLimiter.ts:18-36 | each key passes at most 2·max - 1 events in any closed window length: 59 per ten seconds, 239 per minute at the edge |
| RateLimits.BoundsInForce | apps/server/src/middleware/socketRateLimiter.ts:11-12 | 59 in ten seconds on the server, 239 in a minute at the edge |
| RateLimits.RefusedExactly | apps/server/src/middleware/socketRateLimiter.ts:18-48 | over any run, cleanups included, an event is refused if and only if the window it falls in, found from the events alone, has had its fill |
| RateLimits.LimitsInForce | apps/web/src/middleware.ts:25-40 | 30 in ten seconds on the server, 120 in a minute at the edge |
| RateLimits.BoundReached | apps/web/src/middleware.ts:25-40 | a burst that passes exactly that many |
| RateLimits.CleanupInvisible | apps/server/src/middleware/socketRateLimiter.ts:41-48 | leaving out all cleanups changes no decision of a run |
| Sessions.SessionProtector.RegisterSession | apps/server/src/agents/sessionProtector.ts:45-101 | stale index entries dropped, oldest evicted at the limit, new session entered |
| Sessions.SessionProtector.ValidateSession | apps/server/src/agents/sessionProtector.ts:106-156 | refused exactly for a changed fingerprint or too many requests a second, and then marked suspicious |
| Sessions.SessionProtector.RemoveSession | apps/server/src/agents/sessionProtector.ts:161-170 | the session and its index entry go |
| Sessions.SessionProtector.Cleanup | apps/server/src/agents/sessionProtector.ts:192-201 | exactly the inactive sessions go, from table and index, in any order |
| Sessions.RegisterExactIff | apps/server/src/agents/sessionProtector.ts:45-101 | a registration keeps the index exact if and only if the token is new or already the same user's |
| Sessions.RegisterCappedIff | apps/server/src/agents/sessionProtector.ts:64-82 | it keeps the cap of three unless the user is at the limit, the token is new and the oldest session has the empty token |
| Sessions.EvictsOldest | apps/server/src/agents/sessionProtector.ts:64-82 | the evicted session is the user's and none of that user's was created earlier |
| Sessions.StepExact | apps/server/src/agents/sessionProtector.ts:45-201 | every operation keeps index exactness and cap |
| Sessions.AlwaysExact | apps/server/src/agents/sessionProtector.ts:45-201 | in every reachable state a user's index is exactly the set of that user's sessions, at most three |
| Sessions.EndsExactly | apps/server/src/agents/sessionProtector.ts:64-201 | a session is over after an operation if and only if it was removed, a cleanup found it unseen for over 900 seconds, or its user, having three, registered under another token and it was the earliest |
| Sessions.ValidExactly | apps/server/src/agents/sessionProtector.ts:106-156 | over every run a check passes if and only if the token has no session or comes with the fingerprint registered and at most ten checks a second since; a session is suspicious exactly after a refusal |
| Sessions.EmptyTokenBreaksCap | apps/server/src/agents/sessionProtector.ts:64-82 | a state in which a fourth session is accepted |
| Sessions.EmptyTokenRun | apps/server/src/agents/sessionProtector.ts:45-101 | from the start, after a first registration with the empty token every later session of that user stays, however many |
| Sessions.UncappedRun | apps/server/src/agents/sessionProtector.ts:45-101 | any number of sessions over three is reached from the start by registering distinct tokens, the empty one first |
| Threats.ThreatIntelligence.ReportThreatSignal | apps/server/src/agents/threatIntelligence.ts:68-119 | record, score and action after a report |
| Threats.ThreatIntelligence.CheckThreatStatus | apps/server/src/agents/threatIntelligence.ts:124-157 | verdict, action, score and release of a run-out quarantine |
| Threats.ThreatIntelligence.Decay | apps/server/src/agents/threatIntelligence.ts:203-217 | every record's score lowered by age and exactly the forgotten ones deleted, in any order |
| Threats.ComputeScore | apps/server/src/agents/threatIntelligence.ts:84-92 | the accumulating loop computes the capped, rounded weighted mean |
| Threats.PickAction | apps/server/src/agents/threatIntelligence.ts:95-100 | the threshold loop picks the action of the score |
| Threats.FullWeight | apps/server/src/agents/threatIntelligence.ts:87-92 | the newest signal has weight one, so the divisor is the total weight |
| Threats.ScoreBetween | apps/server/src/agents/threatIntelligence.ts:84-92 | for all real severities and clocks the score is between ten times the least and the greatest retained severity, rounded and capped |
| Threats.ScoreNearest | apps/server/src/agents/threatIntelligence.ts:94-94 | the score is the weighted mean rounded to the nearest whole number, at most 100 |
| Threats.WeightExactly | apps/server/src/agents/threatIntelligence.ts:89-90 | a signal's weight falls linearly with its age until the 54th minute and is a tenth from then on |
| Threats.OlderDrawsLess | apps/server/src/agents/threatIntelligence.ts:84-94 | making a past signal older never moves the score towards its severity |
| Threats.ReportScore | apps/server/src/agents/threatIntelligence.ts:77-92 | with severities between two whole numbers up to ten the reported score is between ten times each |
| Threats.ActionIsHighest | apps/server/src/agents/threatIntelligence.ts:34-40 | the action is the highest whose threshold is reached |
| Threats.ActionExactly | apps/server/src/agents/threatIntelligence.ts:34-40 | each twenty points are one step harder, up to quarantine |
| Threats.ReportExactly | apps/server/src/agents/threatIntelligence.ts:68-119 | a report keeps the last fifty signals, takes the action of the score and quarantines for an hour exactly from 80 points |
| Threats.ResponseMonotone | apps/server/src/agents/threatIntelligence.ts:84-100 | raising severities never lowers the score or softens the action |
| Threats.QuarantineHolds | apps/server/src/agents/threatIntelligence.ts:103-157 | after a quarantine every check within the hour is denied and the record kept, over any interleaving of reports, checks and decay |
| Threats.QuarantineExactly | apps/server/src/agents/threatIntelligence.ts:131-157 | without further reports a check is denied if and only if it comes within the hour |
| Threats.BlockHolds | apps/server/src/agents/threatIntelligence.ts:152-217 | with no quarantine pending a block denies exactly until decay deletes the record, at least an hour |
| Threats.LastReportDecides | apps/server/src/agents/threatIntelligence.ts:103-217 | after a target's last report, whatever checks and decay follow: with a quarantine time stored a check is denied if and only if it comes before it, otherwise if and only if the action was block and the record is still there |
| Threats.BlockDeniedIff | apps/server/src/agents/threatIntelligence.ts:146-157 | right after a block a check is denied if and only if no earlier quarantine has run out unnoticed |
| Threats.BlockLostAfterQuarantine | apps/server/src/agents/threatIntelligence.ts:146-157 | two reports and a check in which the block is lost |
| Threats.ForgottenExactly | apps/server/src/agents/threatIntelligence.ts:203-212 | a record an hour old without quarantine loses ten points in each decay pass and is deleted exactly in the pass that takes it to zero |
| Threats.FadedExactly | apps/server/src/agents/threatIntelligence.ts:213-217 | between five minutes and an hour each pass takes two points and deletes nothing |
| Threats.ReleasedExactly | apps/server/src/agents/threatIntelligence.ts:146-157 | the first check after a quarantine releases the target thirty points lower |
| ShareLinks.LinkGuard.CreateShareLink | apps/server/src/agents/linkGuard.ts:51-82 | a fresh active link under the token |
| ShareLinks.LinkGuard.ValidateLinkAccess | apps/server/src/agents/linkGuard.ts:87-141 | verdict and link afterwards: unknown, revoked, expired, exhausted, address, PIN, suspicious, granted |
| ShareLinks.LinkGuard.RevokeLink | apps/server/src/agents/linkGuard.ts:146-152 | revoked exactly by its creator |
| ShareLinks.LinkGuard.Cleanup | apps/server/src/agents/linkGuard.ts:191-198 | exactly the expired and the long inactive links go |
| ShareLinks.PostShare | apps/server/src/routes/share.ts:40-84 | outcome of the ordered checks, and a creation exactly when all pass |
| ShareLinks.LetInExactly | apps/server/src/agents/linkGuard.ts:87-141 | over every run, by the creating request: an access is let in if and only if the link is open, in time and has views left, the address is invited, the PIN given hashes as the one requested, and at most five other addresses have been let in; otherwise for the first reason that fails |
| ShareLinks.ClosedExactly | apps/server/src/agents/linkGuard.ts:87-198 | an open link is closed by an operation if and only if that is its creator's revocation, an access out of its limits, an invited visitor from one address too many, the visit of a one-time link or a cleanup after its time |
| ShareLinks.RevokersExactly | apps/server/src/agents/linkGuard.ts:146-198 | only the creator of a stored link can revoke it; a closed one is kept for a day, an expired one not |
| ShareLinks.CreatedExactly | apps/server/src/routes/share.ts:40-84 | a well-formed request of a participant creates a link unless the user already has the tier's 5 or 25 |
| ShareLinks.AlwaysSound | apps/server/src/agents/linkGuard.ts:87-141 | in every reachable state views = log length within the limit, a one-time link at most one view, at most six addresses |
| ShareLinks.GrantsBounded | apps/server/src/agents/linkGuard.ts:87-141 | the accesses granted over a whole run never exceed the view limit, or one for a one-time link |
| ShareLinks.AllowsExactly | apps/server/src/agents/linkGuard.ts:87-141 | welcome visitors from at most six addresses are let in exactly as often as the limits say |
| ShareLinks.RevivedIff | apps/server/src/agents/linkGuard.ts:51-152 | an inactive or deleted link becomes active if and only if its token is created again |
| ShareLinks.DeadStaysDead | apps/server/src/agents/linkGuard.ts:146-198 | a revoked, used-up, suspicious or deleted link is never opened again |
| ShareLinks.TierCap | apps/server/src/routes/share.ts:52-73 | under limited tiers a user's active unexpired links never exceed the tier's number, at any later time |
| ShareLinks.ExpiryInstant | apps/server/src/agents/linkGuard.ts:157-161 | an opening link is listed if and only if it is not at its expiry instant |
| ShareLinks.CleanupInvisible | apps/server/src/agents/linkGuard.ts:191-198 | leaving all cleanups out of a run changes no answer to a creation or an access and no list of links |
| ShareLinks.SweepEndsRevocation | apps/server/src/agents/linkGuard.ts:146-152 | after a cleanup a link can be revoked exactly if it could before and was not taken |

## Left out

- AES-GCM, SHA-256, key derivation and random generation: the cipher is any pair of functions for which decryption inverts encryption (section 7 of NIST SP 800-38D); derived keys, identifiers, nonces and tokens are inputs.
- Drawing, toasts, dimming, battery, watchdog, LED and interrupts: hardware output. Redraws matter for the lists they refresh and the identifier and PIN caches they load, which `DeviceLife` includes.
- Power cycles in `Delivery`: messages live in RAM, so its theorems about one device run from one power-up to the next.
- One clock reading per call, and one per pass of the main loop, where the program reads the clock several times.
- A relay or acknowledgement the radio refuses is, in the network model, a transmission all of whose copies are lost.
- Outgoing messages queued again after a radio failure are new sends to the network model; `Quiescence` is about runs without sends.
- The states for sending, receiving and testing do occur in `Firmware.Loop` but not in `Refinement` and `Fleet`; no run of a device reaches them (`DeviceLife.WholeRun`).
- The network's radio links do not change during a run, and nodes do not reboot or change keys in it: `Fleet` is about devices in service without a panic; reboots and panics are in `DeviceLife`.
- Colliding identifiers: a node's identifier is a random number with one fixed replacement for 0 and broadcast (`firmware/src/device_identity.cpp:20-24`), and the theorems of `FloodRounds` assume that no two nodes have the same.
- Pings and unknown packet types: they reach only a toast.
- Wrap-around of expiry and message time stamps in the store: the comparisons there are not wrap-safe (`firmware/src/message_store.cpp:28`, `firmware/src/message_store.cpp:165`), so laws over two times order them as numbers. Wrap-around is covered for the duplicate cache, state timers and buttons.
- EXPIRED as a final state over whole runs: `set_state` can move an expired message (`firmware/src/message_store.cpp:96-100`).
- The EEPROM commit and wear: writes take effect at once.
- Refresh tokens, MongoDB, Redis, Socket.IO, Express, JWT and the React client: network and interface code. The creating route's format and membership checks are inputs.
- Interleaving inside one request: each call of a guard runs without another in between, as in the single-threaded event loop; the route's lookup before the tier check happens before the modelled part.
- Expiry of a subscription: the tier of each creation is an input, so upgrades and downgrades between limited tiers are covered by taking the larger limit.
- Fingerprint and PIN hashing: any function of the inputs.
- Threat scores are over the reals, not floating point; content patterns, metrics and the behaviour, anomaly and phantom heuristics are not part of this model.
- The iteration order of JavaScript maps: cleanups and decay are proved for every order.
