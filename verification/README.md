# Verified models of the desktop client and its relay

This project models, in Dafny, the parts of the client (`client/`) and of the relay (`services/relay/`)
whose correctness is hardest to see from the code, and proves what they keep over every input, every
interleaving or every run.

| module | models |
|---|---|
| `Padding`, `Base64`, `Nip44`, `Nip44Wire`, `Utf8` | NIP-44 version 2 payloads: padded lengths, padding buffers, keystream, framing, size gates, strict base64 (sections 3.5 and 4 of RFC 4648), what is in each byte, and which byte strings are texts |
| `CallClient`, `CallService` | one endpoint of the 1:1 call handshake, cut at every `await` |
| `CallEffects`, `CallRinging`, `CallHangup`, `CallCandidates`, `CallBuffer`, `CallConnections` | what an endpoint's steps do, and what they keep over every interleaving of successive calls: the ring timer, hangups, the candidates and their buffer, the open connection |
| `CallNetwork`, `CallDescriptions`, `CallScenarios` | any number of endpoints over relays that drop, repeat and reorder: offers, descriptions, and runs in which two calls are mixed up |
| `SecretStore`, `RelayIdentity`, `Keystore` | the keychain-and-file secret store, the relay's identity on top of it, and the multi-account keystore |
| `ConcurrencyPool` | bounded concurrency over asynchronous tasks |
| `RelayConnection` | one relay connection: the membership cache, the visibility gate and the rate window |
| `NavigationHistory` | the bounded back/forward history |
| `Nip05` | the NIP-05 name sanitiser |

Code that works by updating variables is modelled by classes and methods (`CallService.Service`,
`SecretStore.Store`, `RelayIdentity.Relay`, `Keystore.Store`, `ConcurrencyPool.Runner`,
`RelayConnection.Connection`, `NavigationHistory.Navigator`, and the methods of `Nip44`). Each method is
proved to compute exactly a specification function, and the results about runs are lemmas about those
functions. Library cryptography is a parameter, so the results hold for every choice of it; likewise the
keychain's behaviour at each call, the answers of the relay's database, the derivation of public keys,
lower-casing and white space. Times are integers.

## What turned out not to hold, and exactly when

- The secret store is a map over a set of keys if and only if no key's marker item is another key's own
  item (`SecretStore.MapExactlyWhenMarkerFree`); in the default instance the keys `x` and `x_marker`
  clash. Within one key, setting then reading fails exactly when the write kept an older, different,
  readable entry (`SecretStore.SetThenGetExactly`).
- In the keystore, an import that reports failure although the key of a new account went in, and a list
  write that keeps an old list which the command changes, break consistency, and nothing else does: for
  every command and every run consistency holds if and only if neither happens
  (`Keystore.CommandConsistentExactly`, `Keystore.RunConsistentExactly`).
- `handleRTCSignal` gives an offer or an answer to whichever connection is open, so everything rests on
  that connection being the active call's own (`CallConnections.AllAlignedExactly`). A set-up that goes
  on after its call has ended replaces the connection of the next call, which is then given the next
  call's answer (`CallScenarios.StaleSetupMixesCalls`: a run of honest parties, in which the callee hangs
  up during `getUserMedia`). `CallConnections.KeepsApart` is the exact guard, step by step
  (`CallConnections.StepKeepsOwnExactly`) and over whole runs (`CallDescriptions.OwnThroughoutExactly`).
  The program has no such guard.
- A hangup ends whichever call is active when its last `await` returns
  (`CallHangup.LateHangupEndsTheNextCall`). Every hangup under way is the active call's own throughout
  a run if and only if no call is opened or accepted during another's hangup
  (`CallHangup.HangupsOwnThroughoutExactly`).
- The candidate buffer is not emptied when a call rings out, fails or is replaced, and what is left in it
  is applied to the next call's connection (`CallScenarios.LeftoverCandidateIsApplied`). Candidates stay
  with their own call if and only if, besides the guard above, the buffer holds nothing of another room
  when a call gets its room and when a flush begins (`CallBuffer.CandidatesOwnThroughoutExactly`).
- A client that authenticates again with another key while the database does not answer keeps the first
  key's membership cache, and is served every space in it until a refresh is due
  (`RelayConnection.StrandedCacheServesTheOldKey`, with a run in `RelayConnection.NonMemberIsServed`). The
  cache belongs to the authenticated key throughout a run if and only if that never happens
  (`RelayConnection.OwnedThroughoutExactly`). A warning in
  `services/relay/src/protocol/handler.rs:497` says that after a failed first lookup broadcasts stay
  hidden until reconnection; the code looks memberships up again after 30 seconds
  (`RelayConnection.FailedFirstLookupRecovers`), and the model follows the code.
- The navigation history shows what an unbounded one would if and only if going back is never refused at
  an entry before which older ones were dropped (`NavigationHistory.ShowsTheSameExactly`); after 101
  entries the hundredth going back is (`NavigationHistory.HundredthBackIsRefused`).

## Model

| member | source | states |
|---|---|---|
| Padding.CalcPaddedLen | client/src-tauri/src/nip44.rs:67-86 | Fails exactly outside 1 to 65535; otherwise the result has room for the message and lies between 32 and 65536 |
| Padding.StrictNextPowerIs | client/src-tauri/src/nip44.rs:77-83 | The doubled-or-next power of two is the power of two strictly above its argument, as the comment says |
| Padding.LegacyNextPowerIs | client/src-tauri/src/nip44.rs:94-96 | The earlier computation takes the argument itself when that is a power of two, and agrees otherwise |
| Padding.PaddedCoversPlaintext | client/src-tauri/src/nip44.rs:66-86 | Padding never loses bytes, for every length without the cap |
| Padding.PaddedMonotone | client/src-tauri/src/nip44.rs:66-86 | Longer messages never pad to less |
| Padding.PaddedIdempotent | client/src-tauri/src/nip44.rs:66-86 | A padded length pads to itself |
| Padding.PaddingOverheadBound | client/src-tauri/src/nip44.rs:66-86 | Above 256 the overhead is strictly below a quarter of the length less one |
| Padding.PaddedRange | client/src-tauri/src/nip44.rs:14-86 | Encryptable lengths pad to 32 up to 65536, both attained |
| Padding.PaddedIsLeastMultiple | client/src-tauri/src/nip44.rs:74-85 | The padded length is the least multiple of the chunk with room for the message; the chunk is 32 up to 256, and above that an eighth of the power of two above the length less one |
| Padding.LegacyAtPower | client/src-tauri/src/nip44.rs:77-96 | Where the length less one is 2^k, k at least 8, the paddings are 5 * 2^(k-2) and 9 * 2^(k-3) |
| Padding.PaddingsDifferExactly | client/src-tauri/src/nip44.rs:77-96 | The two paddings differ if and only if the length less one is a power of two not below 256 |
| Padding.EightDivergentLengths | client/src-tauri/src/nip44.rs:77-81 | Under the cap these are exactly the eight lengths that the comment lists |
| Padding.LegacyCoversPlaintext | client/src-tauri/src/nip44.rs:88-97 | The earlier padding also has room for the message and never exceeds today's |
| Base64.DecodeInvertsEncode | client/src-tauri/src/nip44.rs:199-216 | Decoding inverts encoding for every byte string |
| Base64.EncodeInvertsDecode | client/src-tauri/src/nip44.rs:216 | Strictness: whatever decodes is exactly what encoding its bytes gives |
| Base64.EncodeInjective | client/src-tauri/src/nip44.rs:199 | Distinct byte strings have distinct encodings |
| Base64.EncodeIsTheStandards | client/src-tauri/src/nip44.rs:199 | Every character is that of RFC 4648, section 4: the base-64 digits of each three bytes, most significant first, in its table 1, and '=' where there is no byte |
| Utf8.TextsExactly | client/src-tauri/src/nip44.rs:257 | A byte string is a text if and only if it is the UTF-8 encoding of some sequence of Unicode scalar values |
| Nip44.Resize | client/src-tauri/src/nip44.rs:109 | Growing appends zeros and nothing else |
| Nip44.Pad | client/src-tauri/src/nip44.rs:100-111 | Gives the big-endian length, the message and zeros up to the padded length, or fails exactly outside 1 to 65535 bytes |
| Nip44.Unpad | client/src-tauri/src/nip44.rs:114-142 | Opens a buffer to the message it is one of the two paddings of, and refuses every other buffer |
| Nip44.UnpaddedExactly | client/src-tauri/src/nip44.rs:114-142 | For every buffer and message: unpadding gives the message if and only if the buffer is one of its two paddings |
| Nip44.XorInvolution | client/src-tauri/src/nip44.rs:187 | Masking a byte twice restores it |
| Nip44.StreamInvolution | client/src-tauri/src/nip44.rs:187-253 | Applying the keystream twice restores the data, for every keystream |
| Nip44.ApplyKeystream | client/src-tauri/src/nip44.rs:182-187 | Overwrites the buffer in place with its exclusive or with the keystream |
| Nip44Wire.XorIsBitwise | client/src-tauri/src/nip44.rs:187 | Each bit of a masked byte is the sum without carry of the two bits |
| Nip44.EncryptWithNonce | client/src-tauri/src/nip44.rs:173-200 | Assembles version, nonce, ciphertext and code of the padded text, encoded; fails exactly on a length that cannot be encrypted |
| Nip44.Decrypt | client/src-tauri/src/nip44.rs:205-258 | Takes the checks in the program's order, with its error for each, and returns the unpadded text |
| Nip44Wire.EncryptedBytes | client/src-tauri/src/nip44.rs:48-64 | What encryption writes, byte by byte: version 2, nonce, the length, text and zeros masked under bytes 0-32 and 32-44 of the key derivation, and the code of nonce and ciphertext under bytes 44-76 |
| Nip44Wire.DecryptedBytes | client/src-tauri/src/nip44.rs:205-258 | What decryption has read when it accepts: the same bytes under the same keys, in one of the two paddings |
| Nip44Wire.RefusedUndeciphered | client/src-tauri/src/nip44.rs:206-245 | Which payloads are refused before anything is deciphered, and with which error; a wrong code always |
| Nip44Wire.UnpadRefusesExactly | client/src-tauri/src/nip44.rs:114-140 | When unpadding gives each of its errors |
| Nip44.SizesPassTheGates | client/src-tauri/src/nip44.rs:206-222 | Every payload that encryption produces passes both size gates |
| Nip44.GateEndsAttained | client/src-tauri/src/nip44.rs:206-222 | Both ends of both gates, 99 and 65603, 132 and 87472, are attained |
| Nip44.FrameOpens | client/src-tauri/src/nip44.rs:173-258 | A framed and encoded buffer comes back, for any buffer within the gates |
| Nip44.DecryptInvertsEncrypt | client/src-tauri/src/nip44.rs:173-258 | Decryption inverts encryption for every text of 1 to 65535 bytes, every key, nonce and cipher |
| Nip44.SealedOpens | client/src-tauri/src/nip44.rs:126-134 | A payload sealed with either padding decrypts to its text |
| Nip44.AcceptedIsSealed | client/src-tauri/src/nip44.rs:205-258 | An accepted payload is rebuilt byte for byte from its own nonce and the text it opened to |
| Nip44.DecryptsExactlyTheSealed | client/src-tauri/src/nip44.rs:205-258 | A payload decrypts to a text if and only if it is that text sealed under some nonce |
| Nip44.AcceptedIsEncryptedExceptAtDivergentLengths | client/src-tauri/src/nip44.rs:125-134 | Away from the divergent lengths an accepted payload is what encryption writes; there, the shorter legacy payload is the one exception |
| Nip44.SealedTextUnique | client/src-tauri/src/nip44.rs:205-258 | Under one key a payload is a sealing of one text only |
| CallRinging.NoReturnToRinging | client/src/features/calling/callService.ts:101-153 | No step but the opening of a call makes a call ring |
| CallRinging.StepKeepsRingInv | client/src/features/calling/callService.ts:140-152 | Every step keeps: a ringing call is one's own and unconnected, the timer is for an own room, no missed call was connected |
| CallRinging.RunKeepsRingInv | client/src/features/calling/callService.ts:140-152 | The same over every interleaving of every run with fresh rooms |
| CallRinging.TimeoutEndsOnlyItsOwnCall | client/src/features/calling/callService.ts:140-152 | In every reachable state a timeout ends a call exactly when it was armed for that call and the call still rings, and otherwise only clears the timer |
| CallRinging.ConnectedIsNeverMissed | client/src/features/calling/callService.ts:294-366 | A call whose `connect` was handled is never among the missed ones, before or after |
| CallRinging.ConnectHandledOnce | client/src/features/calling/callService.ts:294-298 | `connect` is acted on at most once per room, and only by the party that opened it |
| CallEffects.HangupTellsThePeer | client/src/features/calling/callService.ts:243-254 | A hangup publishes a disconnect to the partner in the call's room, before anything else |
| CallEffects.HangupClosesTheConnection | client/src/features/calling/callService.ts:255-270 | Then the open connection is closed and none is open, no other changes, exactly the buffered candidates are thrown away, and the call ends or the voice server is left first |
| CallEffects.PeerHangupClosesTheConnection | client/src/features/calling/callService.ts:346-349 | The partner's own hangup does all of that at once and publishes nothing |
| CallEffects.NoneLeftOpen | client/src/features/calling/callService.ts:183-264 | At every moment of every run every connection but the open one has been closed |
| CallEffects.NoneOutlivesAHangup | client/src/features/calling/callService.ts:255-264 | After the last stretch of any hangup of any run no connection is left open |
| CallEffects.StepKeepsConnections | client/src/features/calling/callService.ts:183-464 | No step reopens or redescribes a closed connection or changes a connection's room or peer |
| CallEffects.FailureStartsTheFallback | client/src/features/calling/callService.ts:450-464 | A failed connection is closed, its buffer emptied and the fallback begun, unless there is no call or it is on the voice server |
| CallEffects.FallbackGoesOn | client/src/features/calling/callService.ts:466-476 | The fallback publishes media only while the call is still its own, and then marks the active call |
| CallEffects.RejectionEndsItsHandler | client/src/features/calling/callService.ts:477-484 | A caught rejection changes nothing, a failed fallback ends only its own call, any other ends its handler alone |
| CallEffects.OthersAreNotHeard | client/src/features/calling/callService.ts:280-289 | A signal from anyone but the partner or for another room changes nothing |
| CallEffects.PartnerIsHeard | client/src/features/calling/callService.ts:293-329 | What the partner's connect, offer and answer do, in every state of the call |
| CallHangup.HangupEndsExactly | client/src/features/calling/callService.ts:225-270 | The last stretch of a hangup ends the call that is active then, so its own exactly if no other one became active |
| CallHangup.StepKeepsHangupsOwnExactly | client/src/features/calling/callService.ts:225-270 | A step keeps every hangup under way to the active call if and only if it does not open or accept a call during another's hangup |
| CallHangup.HangupsOwnThroughoutExactly | client/src/features/calling/callService.ts:225-270 | The same over every run |
| CallHangup.HangupEndsOnlyItsOwnCall | client/src/features/calling/callService.ts:229-270 | In such a run a hangup completes no call but the one it was begun for |
| CallHangup.LateHangupEndsTheNextCall | client/src/features/calling/callService.ts:243-270 | Otherwise, for any two rooms: a hangup suspended while the next call is opened ends that one as it rings |
| CallCandidates.StepConserves | client/src/features/calling/callService.ts:299-350 | Every step keeps each received candidate in exactly one place |
| CallCandidates.StepTimely | client/src/features/calling/callService.ts:330-447 | Every step keeps: candidates go only to described connections, and none waits once the flush has begun |
| CallCandidates.RunConserves | client/src/features/calling/callService.ts:299-447 | Both hold over every run |
| CallCandidates.EachCandidateInOnePlace | client/src/features/calling/callService.ts:299-447 | At every moment a received candidate is once in the buffer, in a handler's hands, applied or discarded by a teardown |
| CallCandidates.NoneAppliedEarly | client/src/features/calling/callService.ts:330-344 | No step applies a candidate to a connection without a remote description |
| CallCandidates.BufferEmptyOnceDescribed | client/src/features/calling/callService.ts:438-447 | Once the open connection is described and owes no flush, the buffer is empty |
| CallBuffer.StepKeepsCandidatesOwnExactly | client/src/features/calling/callService.ts:330-447 | A step keeps buffered, held and applied candidates to the room they came in if and only if the buffer fits when a call gets its room or a flush begins |
| CallBuffer.CandidatesOwnThroughoutExactly | client/src/features/calling/callService.ts:63-447 | The same over every run, together with the open connection being the call's own |
| CallBuffer.AppliedOnlyToItsOwnRoom | client/src/features/calling/callService.ts:330-447 | In such a run every candidate is applied to a connection of the room it came in |
| CallBuffer.FlushHandsOverAll | client/src/features/calling/callService.ts:438-447 | A flush once begun hands over every buffered candidate in order, whatever room it came in |
| CallScenarios.LeftoverCandidateIsApplied | client/src/features/calling/callService.ts:144-152 | Otherwise, for any honest parties and two rooms: a candidate buffered in a call that rings out is applied to the next call's connection |
| CallNetwork.StepProgress | client/src/features/calling/callService.ts:274-396 | A step starts at most one handler, and one that owes an offer only by handling that room's first `connect` |
| CallNetwork.StepKeepsOfferInv | client/src/features/calling/callService.ts:357-396 | Every step of the network keeps offers unique per room and sent by the room's opener |
| CallNetwork.AtMostOneOfferPerRoom | client/src/features/calling/callService.ts:357-396 | With signals dropped, repeated, reordered or forged by outsiders, at most one offer is published per room, by the party that opened it |
| CallDescriptions.ClientStepKeeps | client/src/features/calling/callService.ts:299-329 | An aligned step keeps every description, and every one still to be set, a signal of its connection's own peer and room |
| CallDescriptions.StepKeepsDescriptionInv | client/src/features/calling/callService.ts:299-329 | The network keeps that, and that every answer names an offer which its recipient made to its sender |
| CallDescriptions.DescriptionsMatch | client/src/features/calling/callService.ts:299-329 | In every run whose passed-on signals are aligned, a description is the one offer of its room, or the peer's answer to this party's one offer there |
| CallConnections.AllAlignedExactly | client/src/features/calling/callService.ts:274-325 | Every offer or answer that could arrive is passed to a connection of its own room and sender if and only if the open connection is the active call's own |
| CallConnections.StepKeepsOwnExactly | client/src/features/calling/callService.ts:101-396 | A step keeps it the call's own if and only if a call is opened, or its room derived, with no other call's connection open, and a set-up goes on with no other call active |
| CallConnections.OtherwiseAllMisdirected | client/src/features/calling/callService.ts:299-325 | Once it is not, every offer or answer passed on becomes the description of a connection of another room or peer |
| CallDescriptions.OwnThroughoutExactly | client/src/features/calling/callService.ts:101-396 | Over every run of the network, open connections are their calls' own at every moment if and only if every step met that guard |
| CallDescriptions.ApartRunsMatch | client/src/features/calling/callService.ts:299-329 | In such runs every description is the one offer of its room, or the peer's answer to this party's one offer there |
| CallScenarios.StaleSetupMixesCalls | client/src/features/calling/callService.ts:357-396 | Otherwise, for any honest parties and two rooms: a set-up left over when the callee hangs up takes over the next call and is given its answer |
| CallService.Service.FinishHangup | client/src/features/calling/callService.ts:257-270 | Discards the buffer, closes the connection and ends the call that is active then, unless its own still has to leave the voice server |
| CallService.Service.RingTimeout | client/src/features/calling/callService.ts:144-152 | Takes exactly the timeout step |
| CallService.Service.HandleRTCSignal | client/src/features/calling/callService.ts:274-351 | Takes exactly the delivery step, for every kind of signal |
| CallService.Service.AddCandidates | client/src/features/calling/callService.ts:330-344 | The loop buffers up to the first candidate it can hand over, and stops there with the rest in hand |
| CallService.Service.ResumeTask | client/src/features/calling/callService.ts:129-396 | Continues a suspended handler by exactly one stretch and publishes exactly what that stretch does: connect, offer, answer or the notice of a hangup |
| CallService.Service.FailTask | client/src/features/calling/callService.ts:477-484 | A rejected operation ends its handler; a failed fallback ends its own call only |
| SecretStore.StepRefines | client/src-tauri/src/keystore.rs:1052-1114 | Within the contract each operation on a key set free of marker clashes acts on the map the store stands for, and a read answers from it |
| SecretStore.RunRefines | client/src-tauri/src/keystore.rs:1052-1114 | Over every run the two tiers stand for the map that the same operations build |
| SecretStore.MapExactlyWhenMarkerFree | client/src-tauri/src/keystore.rs:1052-1060 | The store is a map over a key set if and only if no marker item is another key's item |
| SecretStore.MarkerOverwrites | client/src-tauri/src/keystore.rs:1053-1061 | On a clash, storing one key replaces the other's secret by the marker's value |
| SecretStore.ClashExactly | client/src-tauri/src/keystore.rs:56-58 | Which pairs of keys clash, given the instance suffix |
| SecretStore.SetThenGetExactly | client/src-tauri/src/keystore.rs:1052-1104 | On any disk, what was set is read next if and only if the write did not keep an older, different, readable entry |
| SecretStore.SetLeavesAFileExactly | client/src-tauri/src/keystore.rs:1061-1066 | A set leaves a plaintext copy if and only if the write was not reported or did not read back identically; no other file changes |
| SecretStore.GetLeavesAFileExactly | client/src-tauri/src/keystore.rs:1083-1101 | A get that the keychain answers, or that moves the copy there verifiably, leaves none; no get writes one |
| SecretStore.DeleteRemovesAll | client/src-tauri/src/keystore.rs:1108-1114 | A deletion removes item, marker and copy and touches nothing else |
| SecretStore.NoPlaintextAfterASet | client/src-tauri/src/keystore.rs:1055-1062 | After a set that stuck, over every run, no plaintext copy exists until a later write of the key does not stick |
| SecretStore.Store.StoreVerified | client/src-tauri/src/keystore.rs:1072-1077 | True exactly when the write reported success and reads back identically |
| SecretStore.Store.SetSecret | client/src-tauri/src/keystore.rs:1052-1068 | Takes exactly the set step on keychain and files |
| SecretStore.Store.GetSecret | client/src-tauri/src/keystore.rs:1081-1104 | Takes exactly the get step, with its clean-up and migration, and returns its answer |
| SecretStore.Store.DeleteSecret | client/src-tauri/src/keystore.rs:1108-1114 | Removes the item, its marker and the file |
| RelayIdentity.StepAtRest | client/src-tauri/src/relay.rs:106-147 | Every start, reset or other store operation acts on the stored map and the old file as described, and a start returns the identity there was |
| RelayIdentity.OperationKeepsIdentity | client/src-tauri/src/relay.rs:106-147 | Only a wiping reset changes the identity, and it leaves none |
| RelayIdentity.RunAtRest | client/src-tauri/src/relay.rs:106-147 | The same over every run |
| RelayIdentity.IdentityIsStable | client/src-tauri/src/relay.rs:106-147 | Any two starts with no wiping reset between them return the same key |
| RelayIdentity.FirstStartAdopts | client/src-tauri/src/relay.rs:106-147 | A start adopts the stored key, else the old file's, which is deleted only with the key in the store, else a new one; a wipe leaves neither |
| RelayIdentity.ValidKeyExactly | client/src-tauri/src/relay.rs:85-88 | A valid key is 64 hex digits with nothing but white space around them, and trimming gives those digits |
| RelayIdentity.FileGoesOnlyOnceReadBack | client/src-tauri/src/relay.rs:115-136 | Whatever the keychain does, the old file is deleted if and only if its key was just read back, and the store then holds it |
| RelayIdentity.Relay.LoadOrCreateIdentity | client/src-tauri/src/relay.rs:106-147 | Takes exactly the starting step and returns its key |
| RelayIdentity.Relay.ResetIdentity | client/src-tauri/src/relay.rs:311-318 | Deletes the stored key and the old file if asked to, and nothing otherwise |
| Keystore.CommandConsistent | client/src-tauri/src/keystore.rs:765-1022 | Every command keeps the keystore consistent and lists no account but those listed before and the one it brings in |
| Keystore.RunConsistent | client/src-tauri/src/keystore.rs:643-1022 | After every sequence of commands and restarts each key derives the account it is filed under, the list is free of duplicates and equals the stored keys, and the active account is listed or none |
| Keystore.SignedByTheNamedKey | client/src-tauri/src/keystore.rs:818-842 | Whatever happened before, a signature is made by the key whose public key the event names |
| Keystore.SigningExactly | client/src-tauri/src/keystore.rs:818-842 | Signing succeeds if and only if the key of the active, or else first listed, account can be had and the event names it letter by letter up to case; each refusal is accounted for |
| Keystore.DeletedStaysGone | client/src-tauri/src/keystore.rs:958-1005 | A deleted account does not load, become active or be listed again until a key of it is brought in anew |
| Keystore.ImportedKeySurvivesRestart | client/src-tauri/src/keystore.rs:926-953 | An imported key is the one that loads after a restart, unless the keychain then fails outright |
| Keystore.LoadConsistent | client/src-tauri/src/keystore.rs:643-694 | Loading a key keeps consistency, gives a key of that very account, and fails for an unlisted one |
| Keystore.LoadExactly | client/src-tauri/src/keystore.rs:643-694 | When a key loads, from where, and what is cached, copied to the file and offered to the keychain |
| Keystore.InstallConsistent | client/src-tauri/src/keystore.rs:724-758 | A generated key becomes the active, listed account |
| Keystore.ImportConsistent | client/src-tauri/src/keystore.rs:926-953 | An accepted import adds its account and makes it active; a refused one changes no account |
| Keystore.DeleteConsistent | client/src-tauri/src/keystore.rs:958-1005 | A deletion removes that account alone from the list and never leaves it active |
| Keystore.ActiveKeyConsistent | client/src-tauri/src/keystore.rs:697-759 | The key that is returned is the active account's own |
| Keystore.ActiveKeyExactly | client/src-tauri/src/keystore.rs:697-759 | Which account's key is used, and that one is generated only without any account and when asked for |
| Keystore.GeneratedIsStored | client/src-tauri/src/keystore.rs:773-806 | A new key is cached, active, in the file, listed last and, as its write went, in the keychain |
| Keystore.ImportedIsStored | client/src-tauri/src/keystore.rs:926-953 | So is an imported one; a refused import changes nothing but perhaps its keychain item |
| Keystore.DeletionExactly | client/src-tauri/src/keystore.rs:958-1005 | A deleted key is nowhere any more, the others keep theirs and their order, and the first left becomes active if it was |
| Keystore.OtherCommandsExactly | client/src-tauri/src/keystore.rs:810-1022 | Switching needs the key; clearing and restarting forget only what is in memory |
| Keystore.CommandConsistentExactly | client/src-tauri/src/keystore.rs:765-1022 | Each command keeps consistency if and only if no import reported failure with a new account's key installed and no list write kept an old list that the command changes |
| Keystore.RunConsistentExactly | client/src-tauri/src/keystore.rs:643-1022 | A run is consistent at every moment if and only if the keychain behaved so at every command |
| Keystore.Store.LoadAccountList | client/src-tauri/src/keystore.rs:365-384 | The keychain's list if readable, else the file's, else none |
| Keystore.Store.SaveAccountList | client/src-tauri/src/keystore.rs:386-401 | Always writes the file; the keychain copy goes as its write went |
| Keystore.Store.AddToAccountList | client/src-tauri/src/keystore.rs:403-409 | Appends an account that is not listed |
| Keystore.Store.RemoveFromAccountList | client/src-tauri/src/keystore.rs:411-415 | Filters the account out of the list, keeping the order of the others |
| Keystore.Store.LoadAccountKey | client/src-tauri/src/keystore.rs:643-694 | Takes exactly the loading step: cache, keychain, file |
| Keystore.Store.GetActiveSecretKey | client/src-tauri/src/keystore.rs:697-759 | Takes exactly the step to the active, the first listed or a generated account |
| Keystore.Store.GenerateKey | client/src-tauri/src/keystore.rs:773-806 | Takes exactly the generating step |
| Keystore.Store.ImportSecret | client/src-tauri/src/keystore.rs:926-953 | Takes exactly the importing step, and its error cases |
| Keystore.Store.DeleteAccount | client/src-tauri/src/keystore.rs:958-1005 | Takes exactly the deleting step |
| Keystore.Store.SwitchAccount | client/src-tauri/src/keystore.rs:1015-1022 | Switches only to an account whose key loads |
| Keystore.Store.SignWithActive | client/src-tauri/src/keystore.rs:818-842 | Signs with the active key only an event that names it, in any letter case |
| Keystore.Store.ClearActiveAccount | client/src-tauri/src/keystore.rs:810-814 | Clears the active account only |
| ConcurrencyPool.StepKeepsInv | client/src/lib/concurrencyPool.ts:20-31 | Every worker step keeps: each task below the cursor has its outcome stored or is awaited by one worker |
| ConcurrencyPool.StepUsesOneUnit | client/src/lib/concurrencyPool.ts:20-31 | Every worker step uses up one unit of a measure |
| ConcurrencyPool.StartedInOrder | client/src/lib/concurrencyPool.ts:22-25 | The tasks started so far are those below the cursor, once each and in order |
| ConcurrencyPool.InFlightAreUnsettled | client/src/lib/concurrencyPool.ts:22-29 | The tasks in flight are as many as those started that have no outcome |
| ConcurrencyPool.EveryInterleaving | client/src/lib/concurrencyPool.ts:17-34 | At every moment of every interleaving: tasks are started once, a slot holds its own outcome exactly when its task was taken and is not awaited, no more tasks are in flight than workers, and a worker returns only when all are taken |
| ConcurrencyPool.EveryRunEndsInTheSequentialMap | client/src/lib/concurrencyPool.ts:17-35 | Every run ends, after exactly 2n + workers steps, with every slot filled by its task's outcome and the cursor at n + workers |
| ConcurrencyPool.Runner.Advance | client/src/lib/concurrencyPool.ts:20-31 | One uninterrupted stretch of a worker is exactly one step |
| ConcurrencyPool.RunWithConcurrency | client/src/lib/concurrencyPool.ts:8-36 | Rejects a bound below 1; otherwise, under an arbitrary scheduler, terminates with the sequential map and never more than min(bound, n) tasks in flight |
| RelayConnection.FirstTagDecides | services/relay/src/nostr/event.rs:16-21 | The first tag of a name decides its value, and a first tag without a value means none |
| RelayConnection.VisibleExactly | services/relay/src/connection.rs:79-119 | Who sees an event, said of its tags alone: the public, its author, whom a p tag names, members of the space that its first h tag names |
| RelayConnection.CacheIsTheLastLoad | services/relay/src/connection.rs:29-57 | At every moment the cache is what the last load fetched, for the key it was fetched for, no earlier than the stamp |
| RelayConnection.DeliveryRestsOnARecentLoad | services/relay/src/connection.rs:222-241 | A delivery that rests on membership rests on a load less than 30 seconds old, unless the refresh called for failed |
| RelayConnection.StepKeepsOwnedExactly | services/relay/src/protocol/handler.rs:477-500 | A step leaves the cache with the authenticated key if and only if it is not a new key's AUTH with a failed lookup |
| RelayConnection.OwnedThroughoutExactly | services/relay/src/protocol/handler.rs:477-500 | The same throughout a run: the cache is the authenticated key's at every moment if and only if no step strands it |
| RelayConnection.StalenessBound | services/relay/src/connection.rs:16-57 | While no step strands the cache, a protected event reaches someone neither author nor p-tagged only if the database listed them within the last 30 seconds, or the refresh then failed |
| RelayConnection.SteadyMemberIsServed | services/relay/src/connection.rs:111-116 | A client listed throughout those 30 seconds is served |
| RelayConnection.FailedRefreshIsRetried | services/relay/src/connection.rs:25-28 | A failed refresh changes nothing, and the next h-tagged broadcast tries again whatever came between |
| RelayConnection.FailedFirstLookupRecovers | services/relay/src/connection.rs:206-208 | After a first AUTH whose lookup failed, an answered h-tagged broadcast 30 seconds later loads the memberships |
| RelayConnection.StrandedCacheServesTheOldKey | services/relay/src/protocol/handler.rs:477-500 | After any step that strands the cache, as long as no refresh is due, the new key is served every space listed for the old one when the cache was loaded |
| RelayConnection.NonMemberIsServed | services/relay/src/protocol/handler.rs:477-500 | A run in which a key that was never a member is so served |
| RelayConnection.RateBound | services/relay/src/connection.rs:62-66 | On a restricted relay any half-open interval of length T hands the handler at most 300 * (ceil(T / 10 s) + 1) messages, from any state |
| RelayConnection.RateBoundIsAttained | services/relay/src/connection.rs:173-189 | That bound is attained, by 600 messages within two nanoseconds |
| RelayConnection.SizeAndRestriction | services/relay/src/connection.rs:163-189 | A message over 128 KiB is refused uncounted; an unrestricted relay hands over all others |
| RelayConnection.PlaceInWindowDecides | services/relay/src/connection.rs:178-188 | Within a window a message is handed over exactly if it fits and fewer than 300 were counted before it; the notice answers the 301st |
| RelayConnection.WindowPassesTheFirst300 | services/relay/src/connection.rs:178-188 | A window passes exactly its first 300 counted messages and sends exactly one notice if it overflows |
| RelayConnection.Connection.MaybeRefreshMemberships | services/relay/src/connection.rs:29-57 | Refreshes exactly when authenticated, due and answered, and says whether it did |
| RelayConnection.Connection.HandleAuth | services/relay/src/protocol/handler.rs:477-500 | Sets the key, and the memberships if the database answers |
| RelayConnection.Connection.OnText | services/relay/src/connection.rs:162-208 | Takes exactly the text step: size gate, rate window, AUTH, stamp |
| RelayConnection.Connection.OnBroadcast | services/relay/src/connection.rs:224-241 | Takes exactly the broadcast step and delivers exactly what the gate passes |
| NavigationHistory.StepStaysAWindow | client/src/hooks/useNavigationHistory.ts:67-78 | A step that is not a refused one keeps the history a window of the unbounded one |
| NavigationHistory.AlwaysTheRecentWindow | client/src/hooks/useNavigationHistory.ts:20-122 | At every moment the history is the most recent part, of at most 100 entries, of the unbounded one that saw all but the refused operations; the cursor is in range and no neighbours are equal |
| NavigationHistory.ShowsTheSameExactly | client/src/hooks/useNavigationHistory.ts:74-115 | It shows what the unbounded one would, all along a run, if and only if going back was never refused at a dropped entry |
| NavigationHistory.HundredthBackIsRefused | client/src/hooks/useNavigationHistory.ts:74-111 | After 101 different entries the hundredth going back is refused and shows something else than the unbounded history |
| NavigationHistory.BackThenForward | client/src/hooks/useNavigationHistory.ts:110-122 | After any run, going back any number of entries and forward again restores the history, and the other way round |
| NavigationHistory.VisitThenBack | client/src/hooks/useNavigationHistory.ts:67-78 | A visit shows its entry and drops what was ahead; going back from it shows what was shown before, even at the limit |
| NavigationHistory.VisitExactly | client/src/hooks/useNavigationHistory.ts:67-78 | A visit of the shown entry changes nothing; any other leaves what led up to it and the new one, at most 100 |
| NavigationHistory.Navigator.Record | client/src/hooks/useNavigationHistory.ts:67-78 | Takes exactly the visiting step and stays within 100 entries |
| NavigationHistory.Navigator.Back | client/src/hooks/useNavigationHistory.ts:110-115 | Moves back and restores the entry there, or does nothing at the oldest |
| NavigationHistory.Navigator.Forward | client/src/hooks/useNavigationHistory.ts:117-122 | Moves forward and restores the entry there, or does nothing at the newest |
| Nip05.TidyIsClean | client/src/lib/nip05Utils.ts:16-20 | Whatever goes into the last five replacements comes out clean |
| Nip05.SanitizeIsAProjection | client/src/lib/nip05Utils.ts:11-21 | The result is clean, sanitising it again changes nothing, and the fixed points are exactly the clean strings |
| Nip05.LettersSurvive | client/src/lib/nip05Utils.ts:11-21 | The letters and digits of the lower-cased name survive, all of them and in order |
| Nip05.WordsAreHyphenated | client/src/lib/nip05Utils.ts:14-15 | Clean words separated and surrounded by white space become the words joined by single hyphens |
| Nip05.RunsCollapse | client/src/lib/nip05Utils.ts:17-19 | A run of one special character between clean words becomes one of it |
| Nip05.ForeignCharactersVanish | client/src/lib/nip05Utils.ts:16 | Names that differ only in characters outside the alphabet and white space give the same result |
| Nip05.EndsAreTrimmed | client/src/lib/nip05Utils.ts:20 | Special characters at either end are cut off |

## Left out

- Nip44.DecryptInvertsEncrypt: HKDF, HMAC and ChaCha20 are uninterpreted and never fail; their failures on wrong key sizes cannot occur with the fixed-size keys used here.
- Nip44.EncryptWithNonce: the nonce is a parameter; the wrapper that draws it at random is not modelled, nor is the derivation of conversation keys.
- Nip44.Decrypt: texts are their UTF-8 bytes; error messages are error constructors; the code comparison's timing is not modelled.
- CallDescriptions.DescriptionsMatch: assumes that passed-on signals are aligned; `CallDescriptions.ApartRunsMatch` replaces that by a guard known before each step.
- CallService.Service.ResumeTask: which operations WebRTC accepts is not modelled beyond closed connections; any description may be set on an open connection, any awaited operation may succeed or be rejected, and consecutive awaits with no change of modelled state between them are one.
- CallService.Service.P2PFailure: the grace timer and ICE states appear as a failure step at any time; media capture, LiveKit, gift wraps, relay lookup and the invitation's delivery are not modelled.
- CallClient.SetState: of the call reducers (client/src/store/slices/callSlice.ts) the model has the active call's partner, room, state and SFU flag and the outcome of ended calls; incoming invitations, declines, durations and mute flags are not modelled.
- CallClient.Sent: a hangup before an accepted call has derived its room publishes a notice without a room, which parsing drops; the model does not put it on the network.
- SecretStore.RunRefines: deletes take effect and the file tier is reliable; the macOS legacy keychain is merged with the protected one into one keychain.
- RelayIdentity.IdentityIsStable: the removal of the old key file succeeds, and the database files that a reset also deletes are not modelled.
- Keystore.RunConsistent: the single-key-era migration and the legacy keychain tier are left out, commands do not interleave, deletes take effect, stored key text always parses, and key text is the key itself.
- Keystore.SignedByTheNamedKey: the signature, event hashing and JSON parsing are not modelled; an event is the public key it names, if it names one.
- ConcurrencyPool.RunWithConcurrency: a task that throws before its first `await` settles like one that rejects; a bound that is not an integer is not modelled.
- RelayConnection.StalenessBound: one handled message is one instant, so a load is as old as the message that caused it; the database gives one answer per instant.
- RelayConnection.RateBound: the 32-bit width of the message counter is not modelled; it would take four billion messages in one window.
- RelayConnection.Connection.OnBroadcast: which subscriptions match, sending, lagging and closing are not modelled; a delivery is an event that passes the gate.
- RelayConnection.Connection.OnText: of what the handler does with a message only a verified AUTH is modelled.
- NavigationHistory.Navigator.Record: the 150 ms debounce and the 300 ms during which a restored state is not recorded are not modelled; every call is one that the timer let through.
- Nip05.SanitizeIsAProjection: lower-casing and white space are parameters, assumed only to leave the target alphabet alone; names with an unpaired surrogate are not modelled.
- The relay's message handler, subscription matching, store and HTTP surface, the tunnel, the Tauri and axum wiring.
- React components, Redux slices, theming, media pickers and configuration: no invariants beyond the type checker's.
