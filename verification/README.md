# Verified models of liblinphone's stateful core

Dafny models of five parts of the `coreapi` directory of liblinphone that carry state or encode data, and
proofs of what they keep over every run.

* **LIME message ratchet** (`LimeKeys`, `LimeCache`, `LimeMessage`, `LimeSpec`, `LimeProtocol`, `LimeUpload`; `Bytes` for
  the cache's big-endian blobs). Each device pair caches a key, a session id and a 32-bit index. Sending seals
  the message under every usable key of the peer's devices, then derives each key once; receiving finds the
  device's own part, derives forward by at most 100 steps, opens it, derives once more and stores. The protocol
  is modelled as any number of devices exchanging packets over a network that may lose, repeat, delay and
  reorder them.
* **Tunnel manager** (`TunnelState`, `TunnelRuns`, `TunnelSwitching`, `TunnelDetection`, `TunnelManager`, `TunnelQueue`). Mode, target and actual
  state, the client's life cycle, UDP-mirror detection and whose test results it listens to, background tasks, and the mutex-protected event queue,
  the last one instruction by instruction with any number of posting threads.
* **Tunnel configurations** (`TunnelText`, `LinphoneTunnel`). The printer and parser down to `strtok`, `atoi`
  and "%d", saving and loading of lists, and the copy of the list that the manager keeps.
* **Remote conference** (`ConferenceState`, `ConferenceRuns`, `ConferenceOutcomes`, `RemoteConference`). Calling the focus and
  transferring each participant's call to it (REFER to a conference, section 5.5 of RFC 4579).
* **Credentials and friends** (`Credentials`, `FriendIndex`, `FriendList`). The four-level credential lookup with
  replace-on-add, and the multimap from URI to friends that must agree with a scan of the friend list.

Code that updates objects is a class with the source's fields; each method is proved equal to a function on the
object's abstract state, and the theorems about runs are lemmas over these functions. The assumptions can be met:
`LimeKeys.LawfulSuiteExists` and `LimeProtocol.SessionExists` give an instance of the cryptographic laws and of two
devices in session. `dafny verify
dfyconfig.toml` checks everything.

Ten promises turned out not to hold of the code as it stands. Each has a concrete failing input and the exact
condition under which the promise does hold:

| promise | fails in | holds exactly when |
|---|---|---|
| the mirror position is readable while detection runs | `TunnelRuns.CleanDuringDetectionIsUndefined` | servers are not cleaned during detection (`TunnelRuns.CursorKeptIff`) |
| the verdicts a detection can reach, by any reports and handlings, are those of its own mirrors | `TunnelDetection.LeftoverDecides` | it was started with no result queued and no other mirror under test (`TunnelDetection.SettledIffOwn`) |
| a conference call whose transfer connects has a participant | `ConferenceRuns.ConnectedTwiceFails`, `ConferenceRuns.ConnectedAfterRemovalFails` | it neither connected before nor lost its participant to an accepted removal by URI while transferring or on its way there (`ConferenceRuns.DefinedIffSpared`) |
| the message indices accepted from a peer strictly increase | `LimeProtocol.WrapReopensIndices` | nothing is accepted once a document carrying index 2^32-1 has been (`LimeProtocol.NoReplayIff`) |
| no call is transferred before the focus contact is known | `ConferenceRuns.EarlyAddFails` | none is added while the focus streams without having been reported connected (`ConferenceRuns.ContactKnownIff`) |
| no two stored credentials share user, matching realm and domain | `Credentials.NullRealmDuplicates` | `SafeAdd`: always for entries with a user, a realm and a domain (`Credentials.AddKeepsUniqueIffSafe`) |
| disabling the tunnel leaves no client running | `TunnelSwitching.DisableLeavesClientRunning` | the tunnel was on, or no client ran (`TunnelSwitching.DisableStopsClientIff`) |
| removing a credential takes out no other | `Credentials.RemovalStrikesOther` | its slot is occupied, or the user has no entry (`Credentials.RemovalBySlot`) |
| removing a friend keeps the URI index in agreement with the list | `FriendIndex.SharedRemovalDisagrees` | `SafeRemoval`: the friend is first under each of its URIs, and alone under one it has twice (`FriendIndex.RemovalAgreesIff`) |
| removing a number of a friend keeps that agreement | `FriendIndex.SharedNumberDisagrees` | the friend does not own the URI through another number or address (`FriendIndex.RemovePhoneAgreesIff`) |

## Model

| member | source | states |
|---|---|---|
| `LimeProtocol.RatchetStaysInStep` | coreapi/lime.c:475-530 | in every run of sends and deliveries, both caches of each session hold the shared initial key derived exactly as often as their stored index says, and the receiver's index never exceeds the sender's |
| `LimeProtocol.AcceptedIsGenuine` | coreapi/lime.c:647-711 | in every run, whatever a device accepts is the text and content type that were sent, at the index of its own part |
| `LimeProtocol.AcceptedOnce` | coreapi/lime.c:647-711 | in every run, what a device accepts from another comes at strictly increasing indices, so no packet is accepted twice |
| `LimeProtocol.DeliveryInEveryRun` | coreapi/lime.c:647-711 | after any run, a packet is accepted if and only if it has a part for the device with index in the 100-step window; otherwise the cache is unchanged |
| `LimeProtocol.SendInEveryRun` | coreapi/lime.c:475-530 | after any run, a message just sent is recovered by a device with a usable row if and only if that device is at most 100 behind |
| `LimeProtocol.DeliveryOutcome` | coreapi/lime.c:605-711 | the same from the invariant, and the receiver ends on the chain at the part's index plus one, still not ahead of the sender |
| `LimeProtocol.SendThenDeliver` | coreapi/lime.c:475-530 | the same as SendInEveryRun from any state satisfying the invariant; the sender's index grows by one |
| `LimeProtocol.SendKeepsInv` | coreapi/lime.c:429-544 | a send keeps the whole protocol invariant |
| `LimeProtocol.DeliverKeepsInv` | coreapi/lime.c:546-719 | a delivery keeps the whole protocol invariant |
| `LimeProtocol.RunKeepsInv` | coreapi/lime.c:429-719 | so does every run |
| `LimeProtocol.NewPartIsOwn` | coreapi/lime.c:475-530 | the part for a device in a new message is sealed under the key of that device's own row, and is there exactly when the row is usable |
| `LimeProtocol.WindowOpens` | coreapi/lime.c:654-707 | the receiver's key reaches the sender's at any index up to 100 ahead and opens what was sealed there, and rejects outside that window |
| `LimeProtocol.ArrivalEffect` | coreapi/lime.c:546-719 | for any document at all: a rejection changes nothing, an acceptance moves the stored index just past the one used, other peers keep theirs |
| `LimeProtocol.NoReplayIff` | coreapi/lime.c:647-711 | against any sequence of documents, forged ones included, the indices accepted from one peer strictly increase if and only if nothing is accepted once a document carrying index 2^32-1 has been |
| `LimeProtocol.NoReplay` | coreapi/lime.c:647-711 | in particular when no document carries 2^32-1 in its part for this device |
| `LimeProtocol.WrapReopensIndices` | coreapi/lime.c:353-355 | the failing run: after index 2^32-1 the peer's next genuine message is accepted at index 0 |
| `LimeProtocol.NoReplayBeforeWrap` | coreapi/lime.c:647-711 | the same under a condition on the input: 101 times the number of arrivals stays below the wrap-around |
| `LimeProtocol.AcceptedBelow` | coreapi/lime.c:654-681 | each arrival moves the index by at most 101 |
| `LimeSpec.SendAnswer` | coreapi/lime.c:84-177 | a send succeeds exactly when some well-formed row of the peer has a date of zero or in the future, answers "expired" exactly when there are rows and all are past their date, "no key" exactly when there are none; a failure leaves the cache alone |
| `LimeSpec.StoredDateDecides` | coreapi/lime.c:145-156 | after a reception stored the date d, a send at time t carries a part for that device if and only if d is zero or t is before d |
| `LimeSpec.PartIff` | coreapi/lime.c:84-158 | a message carries a part for a device exactly when its row is verified, well formed and not past its date |
| `LimeSpec.UsableWithoutSelf` | coreapi/lime.c:66-77 | without a self URI, the rows of any are taken |
| `LimeSpec.SendRefused` | coreapi/lime.c:441-448 | without self ZID, text or content type nothing is sent |
| `LimeSpec.PartContents` | coreapi/lime.c:380-400 | the part in octets: text and type sealed under 24 octets of the row's key and 8 of vector, over sender ZID, receiver ZID and big-endian index |
| `LimeSpec.RowAfterSend` | coreapi/lime.c:475-530 | the row afterwards has the next key of the ratchet and the next index, and is otherwise the same |
| `LimeSpec.AcceptedIff` | coreapi/lime.c:647-707 | any document with a part for this device is accepted exactly when it has a text, its index is at most 100 ahead and not behind, and text and type open under the ratchet's key for that index; what is returned is what they open to |
| `LimeSpec.RowsAfterAcceptance` | coreapi/lime.c:709-711 | an acceptance moves the sender's row, alone, to the next key and index, with the new date if one is given |
| `LimeSpec.ReceptionRefused` | coreapi/lime.c:566-604 | the rejections before any part is looked at, each with its error and its condition |
| `LimeSpec.MalformedRow` | coreapi/lime.c:207-246 | a row of the device with a column of the wrong length is an invalid cache |
| `LimeSpec.NoPart` | coreapi/lime.c:605-652 | a document without a part for this device is rejected |
| `LimeSpec.DerivedIsRatchet` | coreapi/lime.c:316-356 | n derivations hash, n times, counter, label, zero, session id, index and length in that order |
| `LimeSpec.HashInputFields` | coreapi/lime.c:325-343 | that input by offset, 55 octets; the index can be read back from it (section 4.5.1 of RFC 6189) |
| `LimeSpec.Be32IsBigEndian` | coreapi/lime.c:273-276 | the index blob is big-endian, by place values |
| `LimeMessage.SendAdvancesEachKeyOnce` | coreapi/lime.c:475-530 | a send advances every usable row exactly once and leaves every other row and all receiving columns alone |
| `LimeMessage.CreateMultipartMessage` | coreapi/lime.c:429-544 | the loop over keys gives one part per usable key and the rows derived and stored, with the source's error cases |
| `LimeMessage.DecryptMultipartMessage` | coreapi/lime.c:546-719 | all the rejections in the source's order, else the text, the content type and the stored key |
| `LimeMessage.CatchUp` | coreapi/lime.c:664-681 | catching up reaches the index used in at most 100 derivations |
| `LimeMessage.SeekPart` | coreapi/lime.c:605-642 | the first part addressed to this device is taken |
| `LimeCache.UsableKeyAt` | coreapi/lime.c:84-158 | every usable row contributes its key, at its position |
| `LimeCache.UsableKeyOrigin` | coreapi/lime.c:84-158 | and every key comes from a usable row |
| `LimeCache.WriteThenRead` | coreapi/lime.c:258-306 | the key read back after a write is the key written, through the big-endian index and date, and no other column changes |
| `LimeCache.LookupStable` | coreapi/lime.c:193-246 | writes move no row: a lookup finds the same row before and after |
| `LimeCache.Cache.GetCachedSndKeysByUri` | coreapi/lime.c:42-177 | collects distinct fresh structures for exactly the usable rows, telling "no key" from "only expired keys" |
| `LimeCache.Cache.GetCachedRcvKeyByZid` | coreapi/lime.c:179-256 | the first matching row's receiving key, or no key, or an invalid cache |
| `LimeCache.Cache.SetCachedKey` | coreapi/lime.c:258-306 | exactly the rows of the key's zuid change, in the columns of the role; the date only for a receiver with a time span |
| `LimeKeys.DerivedNStaysOnChain` | coreapi/lime.c:664-681 | n derivations from index i lie on the chain at i+n |
| `LimeKeys.FillDerivationInput` | coreapi/lime.c:316-356 | the 55-octet buffer filled field by field is counter, label, separator, session id, index and length (section 4.5.1 of RFC 6189) |
| `LimeKeys.LimeKey.Derive` | coreapi/lime.c:316-356 | the key is overwritten by the digest of that buffer and the index grows by one modulo 2^32 |
| `LimeKeys.LimeKey.Encrypt` | coreapi/lime.c:380-400 | 24 octets of key, 8 of initialisation vector, associated data self ZID, peer ZID, index |
| `LimeKeys.LimeKey.Decrypt` | coreapi/lime.c:402-427 | the same with peer ZID first |
| `LimeKeys.EncryptedOpens` | coreapi/lime.c:380-427 | what one end seals the other opens: both build the same associated data |
| `Bytes.Be32RoundTrip` | coreapi/lime.c:234-237 | the index survives its 4-octet encoding |
| `Bytes.Be64RoundTrip` | coreapi/lime.c:131-138 | the validity date survives its 8-octet encoding, negative ones included |
| `Bytes.BigEndianRoundTrip` | coreapi/lime.c:286-293 | writing then reading big-endian is the identity, for any width |
| `Bytes.FromBigEndianRoundTrip` | coreapi/lime.c:131-138 | reading then writing is the identity |
| `LimeUpload.Upload` | coreapi/lime.c:914-940 | for any acceptable offers the encrypted chunks tile the file, all but the last are multiples of 16, none is empty, and the upload ends |
| `LimeUpload.ProgressIffAcceptable` | coreapi/lime.c:914-940 | an offer makes progress if and only if it is at least 16 octets or all that is left |
| `LimeUpload.ProcessUploadingFile` | coreapi/lime.c:914-940 | before the end of the file the size becomes a multiple of 16, less than 16 smaller; at the end it is kept |
| `TunnelRuns.ReachableStateOk` | coreapi/TunnelManager.cc:311-349 | in every reachable state, On implies target On, network reachable, a running client and RTP factories installed; Off implies factories removed; no client runs unreachable; detection runs only in Auto and reachable; a background task is held only while detection runs |
| `TunnelRuns.TasksBalanced` | coreapi/TunnelManager.cc:280-284 | over any run the tasks ended are those begun, in order, but for the one held, and after destruction exactly those begun |
| `TunnelRuns.TargetFixedUnderMode` | coreapi/TunnelManager.cc:360-386 | until the next change of mode no event, stale or not, moves the target from On under Enable or from Off under Disable |
| `TunnelRuns.DetectionVerdict` | coreapi/TunnelManager.cc:439-464 | a detection sets the target On exactly when every mirror event it consumed failed or was simulated lost, Off at the first success, and otherwise is still running with the target unchanged |
| `TunnelRuns.Verdict` | coreapi/TunnelManager.cc:439-464 | On if and only if all remaining mirrors failed, Off if and only if one before that succeeded |
| `TunnelRuns.DetectionEnds` | coreapi/TunnelManager.cc:439-464 | it ends after at most as many mirror events as mirrors remain |
| `TunnelRuns.StaleEventsIgnored` | coreapi/TunnelManager.cc:439-444 | once a detection is over, queued events leave the target alone |
| `TunnelRuns.CursorKeptIff` | coreapi/TunnelManager.cc:87-99 | a step keeps the mirror position valid during detection if and only if it is not a cleaning of servers while detection runs |
| `TunnelRuns.CursorValid` | coreapi/TunnelManager.cc:439-464 | under that discipline every run is defined and the position always readable while detection runs |
| `TunnelRuns.CleanDuringDetectionIsUndefined` | coreapi/TunnelManager.cc:87-99 | the failing run |
| `TunnelRuns.NextKeepsInv` | coreapi/TunnelManager.cc:37-99 | every step keeps mode, tunnel and task invariants together |
| `TunnelSwitching.ApplyStateIff` | coreapi/TunnelManager.cc:333-344 | the tunnel turns on exactly when off, wanted and reachable with a ready client, and off exactly when on, unwanted and reachable; factories likewise |
| `TunnelSwitching.ApplyStateClient` | coreapi/TunnelManager.cc:160-223 | a wanted tunnel has its client started, with the manager's servers if it was not running; an unwanted one has it stopped, and deleted unless a call runs |
| `TunnelSwitching.EnabledIsOnWhenReady` | coreapi/TunnelManager.cc:351-386 | after any run, an enabled manager that handles a connection, sees the network return or was just enabled has a running client, and is on with factories if and only if it was on or the client is ready |
| `TunnelSwitching.DisableStopsClientIff` | coreapi/TunnelManager.cc:360-386 | disabling turns the tunnel off in every reachable state, and leaves no client running if and only if it was on or no client ran |
| `TunnelSwitching.DisableLeavesClientRunning` | coreapi/TunnelManager.cc:333-344 | the failing run: enabled and disabled before the client was ready |
| `TunnelSwitching.NetworkLost` | coreapi/TunnelManager.cc:491-499 | losing the network turns tunnel, factories, detection and client off and keeps mode and target |
| `TunnelSwitching.VerdictSwitches` | coreapi/TunnelManager.cc:439-464 | a detection that ends catches up at once: on after failures if the client is ready, off after a success |
| `TunnelSwitching.StartHoldsTask` | coreapi/TunnelManager.cc:512-525 | a started detection holds the task it had or the new one granted |
| `TunnelSwitching.DestroyStops` | coreapi/TunnelManager.cc:280-292 | the destructor stops the client |
| `TunnelDetection.SettledIffOwn` | coreapi/TunnelManager.cc:439-525 | in every reachable system, a detection is started with no result queued and no other mirror under test if and only if every continuation by reports and handlings gives verdicts of its own tests only, in order |
| `TunnelDetection.VerdictsAreOwn` | coreapi/TunnelManager.cc:439-525 | over every run, each detection awaits nothing but its own current mirror throughout if and only if each was started so and servers were not cleaned while one ran; in such runs every verdict is own |
| `TunnelDetection.FreshKeptIff` | coreapi/TunnelManager.cc:439-525 | one step keeps a detection awaiting its own current mirror only if and only if it starts none over leftovers and cleans no servers of a running one |
| `TunnelDetection.HandledVerdict` | coreapi/TunnelManager.cc:439-464 | a detection that ends then has consumed its own mirrors' results in order, all failed for On, all but the last for Off |
| `TunnelDetection.LeftoverMisleads` | coreapi/TunnelManager.cc:480-525 | a detection started over leftovers can, by reports and handlings, end in a verdict on another detection's result |
| `TunnelDetection.Completes` | coreapi/TunnelManager.cc:439-464 | a running detection with a result queued can be brought to its end, and its log takes up that result |
| `TunnelDetection.LeftoverDecides` | coreapi/TunnelManager.cc:439-525 | the failing run: the old failure decides On although the second detection's only test found UDP |
| `TunnelManagerClass.TunnelManager.constructor` | coreapi/TunnelManager.cc:250-278 | the initial state |
| `TunnelManagerClass.TunnelManager.StartClient` | coreapi/TunnelManager.cc:160-210 | the client exists, is started and holds the manager's servers of the configured kind, in order |
| `TunnelManagerClass.TunnelManager.StopClient` | coreapi/TunnelManager.cc:212-223 | the client is stopped, and deleted only when no call is running |
| `TunnelManagerClass.TunnelManager.ApplyState` | coreapi/TunnelManager.cc:333-344 | catches the state up with the target when reachable |
| `TunnelManagerClass.TunnelManager.ApplyMode` | coreapi/TunnelManager.cc:360-376 | Enable and Disable stop detection and set the target; Auto starts detection when reachable |
| `TunnelManagerClass.TunnelManager.SetMode` | coreapi/TunnelManager.cc:378-386 | the same mode is a no-op; every invariant is kept |
| `TunnelManagerClass.TunnelManager.OnIterate` | coreapi/TunnelManager.cc:413-427 | with events posted while each one is handled, the events handled are those queued and then those posted, in order; the queue ends empty and the state is theirs applied in turn |
| `TunnelManagerClass.TunnelManager.ProcessUdpMirrorEvent` | coreapi/TunnelManager.cc:439-464 | ignored when no detection runs; moves to the next mirror or ends the detection |
| `TunnelManagerClass.TunnelManager.NetworkReachableCb` | coreapi/TunnelManager.cc:480-500 | restarts detection or catches up, or untunnels and stops; every invariant is kept |
| `TunnelManagerClass.TunnelManager.StartAutoDetection` | coreapi/TunnelManager.cc:512-525 | nothing and false without mirrors; else starts at the first one, beginning a task only if none is held |
| `TunnelManagerClass.TunnelManager.AddServerWithMirror` | coreapi/TunnelManager.cc:37-44 | the mirror is recorded even when the server is refused for being of the other kind |
| `TunnelManagerClass.TunnelManager.AddServer` | coreapi/TunnelManager.cc:46-60 | appended to the manager's and a live client's list, not in dual mode |
| `TunnelManagerClass.TunnelManager.AddServerPairWithMirror` | coreapi/TunnelManager.cc:62-69 | as for one server |
| `TunnelManagerClass.TunnelManager.AddServerPair` | coreapi/TunnelManager.cc:71-85 | appended in dual mode only |
| `TunnelManagerClass.TunnelManager.CleanServers` | coreapi/TunnelManager.cc:87-99 | all lists emptied and the task ended, a running detection not stopped |
| `TunnelManagerClass.TunnelManager.Destroy` | coreapi/TunnelManager.cc:280-292 | leaves no background task open |
| `TunnelQueue.HandledIsPrefix` | coreapi/TunnelManager.cc:413-427 | under every interleaving the events handled are a prefix of those posted, at most one is in flight, and when the loop is left everything posted was handled |
| `TunnelQueue.QueueIsGuarded` | coreapi/TunnelManager.cc:466-478 | the queue changes only under the mutex of the thread that changes it |
| `TunnelQueue.NextKeepsInv` | coreapi/TunnelManager.cc:395-427 | each instruction keeps mutual exclusion and posted = handled, in flight, queued |
| `TunnelQueue.PostCompletes` | coreapi/TunnelManager.cc:466-478 | when the mutex is free a thread can post its event, exactly once, and be outside again |
| `TunnelQueue.CoreDrains` | coreapi/TunnelManager.cc:413-427 | when the mutex is free the core's thread can handle everything posted and leave its loop |
| `TunnelText.ConfigRoundTrip` | coreapi/linphone_tunnel.cc:91-211 | parsing what was printed gives the configuration back, the delay when there is a mirror port and the second port when there is a second host |
| `TunnelText.RoundTripIffPlain` | coreapi/linphone_tunnel.cc:91-211 | if and only if the hosts are non-empty and free of ':' and '/' |
| `TunnelText.ParsedIsPlain` | coreapi/linphone_tunnel.cc:127-211 | whatever is parsed, from any text, has plain hosts |
| `TunnelText.ListRoundTrip` | coreapi/linphone_tunnel.cc:214-235 | loading a saved list gives the same configurations in order, hostless ones dropped |
| `TunnelText.ListRoundTripIff` | coreapi/linphone_tunnel.cc:266-289 | if and only if the hosts are also free of whitespace |
| `TunnelText.LoadedIsClean` | coreapi/linphone_tunnel.cc:266-289 | whatever is loaded, from any stored text, has such hosts |
| `TunnelText.AtoiRoundTrip` | coreapi/linphone_tunnel.cc:98-122 | a printed number reads back, negative ones included |
| `TunnelText.AtoiReads` | coreapi/linphone_tunnel.cc:147-153 | blanks are skipped, a sign heeded, digits read, and the rest ignored |
| `TunnelText.AtoiOfNothing` | coreapi/linphone_tunnel.cc:147-153 | without a number there is zero |
| `TunnelText.PrintedNumber` | coreapi/linphone_tunnel.cc:98-122 | a printed number has a sign only if negative and no leading zero |
| `TunnelText.ParsedByTokens` | coreapi/linphone_tunnel.cc:127-211 | what any text parses to: which token becomes which field, when there is no configuration, no mirror port, the default delay, or no second host |
| `TunnelText.MirrorWithoutDelay` | coreapi/linphone_tunnel.cc:165-176 | a mirror port without a delay is kept, with the delay 1000 |
| `TunnelText.FieldsByPosition` | coreapi/linphone_tunnel.cc:140-163 | host first, then port, mirror port and delay in turn, later tokens overwriting earlier ones and every fourth swallowed |
| `TunnelText.PrintedText` | coreapi/linphone_tunnel.cc:91-125 | the printed text in each of the four cases |
| `TunnelText.SplitAppend` | coreapi/linphone_tunnel.cc:131-138 | tokenising distributes over a separator anywhere in a text |
| `TunnelText.TextIsOneWord` | coreapi/linphone_tunnel.cc:91-125 | a printed configuration is one word of the saved text |
| `TunnelText.Strtok` | coreapi/linphone_tunnel.cc:131-138 | the scanning loops give the first token and the tokens of the rest |
| `TunnelText.ParseFields` | coreapi/linphone_tunnel.cc:140-163 | the token loop fills host, port, mirror port and delay by position |
| `TunnelText.ConfigFromString` | coreapi/linphone_tunnel.cc:127-211 | the parser equals its specification on every text |
| `TunnelText.SaveConfig` | coreapi/linphone_tunnel.cc:214-235 | the saved text joins the printed configurations by spaces |
| `TunnelText.LoadConfig` | coreapi/linphone_tunnel.cc:266-289 | the scan loop parses every word and keeps those that parse |
| `LinphoneTunnelClass.ManagerMirrorsList` | coreapi/linphone_tunnel.cc:238-330 | with dual mode fixed, after any adds, removes and cleans interleaved with modes, network changes and events, the manager's and a live client's lists are the ordered projections of the configuration list |
| `LinphoneTunnelClass.ListIsEdited` | coreapi/linphone_tunnel.cc:303-330 | after any run the list is the entries added since the last clean, in order, less the first occurrence of each one removed |
| `LinphoneTunnelClass.ListHoldsWhatWasAdded` | coreapi/linphone_tunnel.cc:303-330 | with each object added once, the list holds exactly those added and neither removed nor cleaned away since |
| `LinphoneTunnelClass.WithoutIsRemoval` | coreapi/linphone_tunnel.cc:308-316 | a removal takes out exactly the first occurrence; what comes before and after stays |
| `LinphoneTunnelClass.RestartRestoresList` | coreapi/linphone_tunnel.cc:266-306 | after any such run the saved text loads back to the list |
| `LinphoneTunnelClass.AddConfigInStep` | coreapi/linphone_tunnel.cc:238-263 | adding one configuration keeps the lists in step |
| `LinphoneTunnelClass.AddAllInStep` | coreapi/linphone_tunnel.cc:291-301 | refilling empty lists puts them in step |
| `LinphoneTunnelClass.ManagerKeepsInStep` | coreapi/TunnelManager.cc:160-223 | starting and stopping the client keeps its lists in step |
| `LinphoneTunnelClass.LinphoneTunnel.AddServerIntern` | coreapi/linphone_tunnel.cc:238-263 | the right one of the four manager calls is made and the configuration appended |
| `LinphoneTunnelClass.LinphoneTunnel.AddServer` | coreapi/linphone_tunnel.cc:303-306 | added, saved, and still in step |
| `LinphoneTunnelClass.LinphoneTunnel.RefreshConfig` | coreapi/linphone_tunnel.cc:291-301 | the manager's lists are emptied and refilled, the configuration list is the same |
| `LinphoneTunnelClass.LinphoneTunnel.RemoveServer` | coreapi/linphone_tunnel.cc:308-316 | the first occurrence goes and everything is refreshed and saved; an unknown one changes nothing |
| `LinphoneTunnelClass.LinphoneTunnel.CleanServers` | coreapi/linphone_tunnel.cc:322-330 | both lists empty, nothing stored |
| `LinphoneTunnelClass.LinphoneTunnel.Load` | coreapi/linphone_tunnel.cc:266-289 | the loaded configurations are appended and given to the manager in order |
| `LinphoneTunnelClass.LinphoneTunnel.Save` | coreapi/linphone_tunnel.cc:214-235 | the stored text is that of the list |
| `ConferenceRuns.CallbackPath` | coreapi/conference.cc:358-365 | whatever happens to the calls, the focus call is set exactly in Starting and Running, and the state callback sees Starting, possibly Running, then one end, with no repetition |
| `ConferenceRuns.FocusEndLeavesNothing` | coreapi/conference.cc:891-933 | when the focus ends, in any run, no participant, pending or transferring call is left |
| `ConferenceRuns.TransfersAreRight` | coreapi/conference.cc:873-955 | over every run no call is transferred before the focus contact is known, none twice, every participant holding a call is pending or had its one attempt but not both, and once Running no ready call is pending |
| `ConferenceRuns.ContactKnownIff` | coreapi/conference.cc:739-778 | whatever happens to the calls, no call is transferred before the focus contact is known if and only if none is added while the focus streams without having been reported connected |
| `ConferenceRuns.ContactedIff` | coreapi/conference.cc:739-778 | the same for one event |
| `ConferenceRuns.EarlyAddFails` | coreapi/conference.cc:763-769 | the failing run: a second call is transferred to no contact |
| `ConferenceRuns.DefinedIffSpared` | coreapi/conference.cc:957-972 | a run with fair events never dereferences a missing participant if and only if no Connected hits a transferring call that lost its participant, by connecting before or by an accepted removal of the first participant of its URI; the theorem on transfers applies to exactly such runs |
| `ConferenceRuns.RunDefinedIff` | coreapi/conference.cc:957-972 | the same from any state satisfying the invariants |
| `ConferenceRuns.DefinedIff` | coreapi/conference.cc:957-972 | the same for one event |
| `ConferenceRuns.NextKeepsHeld` | coreapi/conference.cc:780-812 | of the pending and transferring calls, exactly those lost so far have no participant |
| `ConferenceRuns.ConnectedTwiceFails` | coreapi/conference.cc:957-972 | the first failing run, with fair events from a new conference: a transfer reported connected twice |
| `ConferenceRuns.ConnectedAfterRemovalFails` | coreapi/conference.cc:957-972 | the second: the participant removed by its URI, then a first Connected |
| `ConferenceRuns.SecondConnectedIsUndefined` | coreapi/conference.cc:957-972 | in any state with the invariant, a transferring call that has connected stays on the list and cannot connect again |
| `ConferenceRuns.AddAfterEndFails` | coreapi/conference.cc:739-750 | after the end an add fails but leaves a participant behind, since the focus address was cleared |
| `ConferenceRuns.NextKeepsLife` | coreapi/conference.cc:739-992 | every event keeps the life-cycle invariant |
| `ConferenceRuns.NextKeepsInv` | coreapi/conference.cc:739-992 | every fair event keeps the transfer invariant |
| `ConferenceRuns.TransferReadyEffect` | coreapi/conference.cc:903-919 | when the focus connects, exactly the ready pending calls are attempted, each once |
| `ConferenceOutcomes.TransferringIff` | coreapi/conference.cc:881-972 | over every fair run, while the conference lives, a call is being transferred if and only if a request for it was accepted, or made without looking at the answer, and its transfer has not failed since |
| `ConferenceOutcomes.FocusConnectsTakes` | coreapi/conference.cc:903-920 | when the focus connects, the calls that begin to be transferred are exactly those pending, streaming or paused, and accepted; those neither streaming nor paused stay pending |
| `ConferenceOutcomes.ConnectedDetaches` | coreapi/conference.cc:957-962 | a transfer that connects detaches the call from its participant and from no other |
| `ConferenceOutcomes.FailureDrops` | coreapi/conference.cc:945-968 | a transfer that fails, or a pending call that ends, takes out its participant and no other |
| `ConferenceOutcomes.EndAskedIff` | coreapi/conference.cc:814-824 | the focus is asked to end exactly when the user asks or the last call on its way ends or fails and leaves nobody, and no other call ever is |
| `ConferenceOutcomes.TransfersGoToContact` | coreapi/conference.cc:881-908 | every transfer goes to the contact the focus last reported |
| `ConferenceOutcomes.AddAnswers` | coreapi/conference.cc:739-778 | an add always records the participant and fails exactly when the conference must start and has no address |
| `ConferenceOutcomes.RemoveAnswers` | coreapi/conference.cc:780-812 | a removal succeeds exactly while running, for a URI that is there, with the request accepted, and takes out the first of that URI |
| `RemoteConferenceClass.RemoteConference.AddParticipant` | coreapi/conference.cc:739-778 | the case split on the state, with its return codes |
| `RemoteConferenceClass.RemoteConference.RemoveParticipant` | coreapi/conference.cc:780-812 | only while Running, and only if the REFER was accepted |
| `RemoteConferenceClass.RemoteConference.TransferToFocus` | coreapi/conference.cc:881-889 | attempts the transfer and records it as transferring on success |
| `RemoteConferenceClass.RemoteConference.TransferPending` | coreapi/conference.cc:908-917 | erasing while iterating keeps exactly the calls that are not ready, in order, and transfers the others |
| `RemoteConferenceClass.RemoteConference.OnFocusCallStateChanged` | coreapi/conference.cc:903-933 | Connected transfers and goes Running; Error and End empty everything |
| `RemoteConferenceClass.RemoteConference.OnPendingCallStateChanged` | coreapi/conference.cc:935-955 | a ready call is moved and attempted while Running; an ended one is dropped, ending an empty conference |
| `RemoteConferenceClass.RemoteConference.OnTransferingCallStateChanged` | coreapi/conference.cc:957-972 | Connected detaches the participant's call and pushes a second copy; Error drops it |
| `RemoteConferenceClass.RemoteConference.CallStateChangedCb` | coreapi/conference.cc:974-984 | dispatches to the focus or a pending call; every invariant is kept under its assumption |
| `RemoteConferenceClass.RemoteConference.TransferStateChangedCb` | coreapi/conference.cc:986-992 | dispatches to a transferring call |
| `RemoteConferenceClass.RemoteConference.FindByCall` | coreapi/conference.cc:367-373 | the first participant holding the call |
| `RemoteConferenceClass.RemoteConference.FindByUri` | coreapi/conference.cc:375-381 | the first participant of that URI |
| `RemoteConferenceClass.RemoteConference.RemoveHolder` | coreapi/conference.cc:295-302 | removes that participant, or returns -1 |
| `Credentials.RemoveQuotes` | coreapi/authentication.c:55-61 | in the buffer, the C string from the returned position is the text between the first quotes |
| `Credentials.RealmsMatch` | coreapi/authentication.c:63-79 | the buffers compare the unquoted realms; two missing realms match, one missing does not |
| `Credentials.RealmMatchIsEquivalence` | coreapi/authentication.c:63-79 | matching is equality of a canonical form, hence an equivalence |
| `Credentials.LevelSpec` | coreapi/authentication.c:99-133 | each level returns the first entry that passes its test, or with a realm alone the only one, and nothing only when there is none or, with a realm alone, several |
| `Credentials.CredentialStore.FindAuthInfo` | coreapi/authentication.c:99-133 | the single pass computes that level |
| `Credentials.CredentialStore.FindAll` | coreapi/authentication.c:148-165 | unique realm match, else realm and domain, else domain, else user alone |
| `Credentials.FindIsDeclared` | coreapi/authentication.c:99-165 | the whole lookup over the list: the only realm match if exactly one, else the first of realm and domain, else the first of the domain, else the first of the user, entries with a hash left out of the last two unless the realm is ignored; nothing if all four are empty |
| `Credentials.CompatibleIff` | coreapi/authentication.c:82-97 | an entry serves the algorithm it names, or any with a password, or MD5 with neither |
| `Credentials.SameIgnoringCaseIff` | coreapi/authentication.c:82-97 | algorithms compare by their lowered text |
| `Credentials.UnquotedText` | coreapi/authentication.c:55-61 | a quoted realm is the text between its quotes, an unquoted one is itself |
| `Credentials.PublicFindsUser` | coreapi/authentication.c:167-169 | the public lookup returns nothing exactly when no entry has that user name |
| `Credentials.FindsOccupant` | coreapi/authentication.c:148-165 | with a realm and a domain, the lookup of an occupied slot finds an entry of that slot, also when the realm alone is ambiguous |
| `Credentials.AddKeepsKeyedUnique` | coreapi/authentication.c:202-218 | adding keeps entries with user, realm and domain unique |
| `Credentials.AddedIsReplacement` | coreapi/authentication.c:202-218 | nothing is stored without key, hash or password; anything else goes to the end in place of at most one entry, of its user and domain; all others stay |
| `Credentials.RemovedIsDeclared` | coreapi/authentication.c:270-278 | a removal takes out exactly the entry the lookup declares, or nothing if the user has none |
| `Credentials.RemovalFreesSlot` | coreapi/authentication.c:270-278 | with user, realm and domain given the slot is free afterwards |
| `Credentials.RemovalBySlot` | coreapi/authentication.c:270-278 | the entry of the slot goes if there is one; otherwise one of the user's others does, if any |
| `Credentials.RemovalStrikesOther` | coreapi/authentication.c:270-278 | the failing removal: the user's only entry goes although another realm and domain were named |
| `Credentials.StoreStaysUnique` | coreapi/authentication.c:202-294 | over any sequence of adds, removes and clears no two such entries share user, matching realm and domain |
| `Credentials.AddKeepsUniqueIffSafe` | coreapi/authentication.c:202-218 | adding keeps every slot unique, missing realms included, if and only if the add is safe |
| `Credentials.NullRealmDuplicates` | coreapi/authentication.c:202-218 | the failing run: an entry without a realm stored twice |
| `Credentials.DuplicateRun` | coreapi/authentication.c:202-218 | the same for every choice of entries of that shape |
| `Credentials.CredentialStore.AddAuthInfo` | coreapi/authentication.c:202-218 | an unusable entry is refused; the found one of the same domain is replaced; uniqueness is kept |
| `Credentials.CredentialStore.RemoveAuthInfo` | coreapi/authentication.c:270-278 | the found entry goes, if any |
| `Credentials.CredentialStore.ClearAllAuthInfo` | coreapi/authentication.c:284-294 | nothing is left |
| `FriendIndex.RebuildAgrees` | coreapi/friendlist.c:657-668 | rebuilding makes a lookup by URI return exactly the listed friends owning it, each once |
| `FriendIndex.ImportAgrees` | coreapi/friendlist.c:670-685 | importing a friend keeps that |
| `FriendIndex.RemovalAgreesIff` | coreapi/friendlist.c:696-775 | removing a friend keeps it if and only if the removal is safe |
| `FriendIndex.UnsharedRemovalAgrees` | coreapi/friendlist.c:696-775 | in particular when none of the friend's URIs is shared |
| `FriendIndex.SharedRemovalDisagrees` | coreapi/friendlist.c:739-748 | the failing removal: of any two friends with the same one URI, removing the later erases the entry of the earlier |
| `FriendIndex.AddPhoneAgrees` | coreapi/friend.c:444-458 | adding a number to a listed friend keeps the agreement |
| `FriendIndex.RemovePhoneAgreesIff` | coreapi/friend.c:469-484 | removing a number keeps it if and only if the friend does not own the URI otherwise |
| `FriendIndex.SharedNumberDisagrees` | coreapi/friend.c:469-484 | the failing edit |
| `FriendIndex.IndexAgreesWithScan` | coreapi/friendlist.c:657-775 | over any run of imports, rebuilds, edits of numbers and safe removals the index agrees with a scan |
| `FriendIndex.InsertEntries` | coreapi/friend.c:311-336 | an insertion adds one friend at the end of its key and touches no other key |
| `FriendIndex.EraseEntries` | coreapi/friendlist.c:739-748 | an erasure takes the first friend of its key, whoever that is |
| `FriendIndex.EraseOwnEffect` | coreapi/friend.c:338-359 | this erasure takes the friend's own entry and no other |
| `FriendIndex.BlockEnds` | coreapi/friendlist.c:906-924 | the pairs of a key are adjacent, so stopping at the next key misses none |
| `FriendIndex.EmitsEachUriOnce` | coreapi/friendlist.c:190-200 | the resource list (section 3 of RFC 4826) names each distinct URI once, in order |
| `FriendListClass.FriendList.AddToMapIfNotInItYet` | coreapi/friend.c:311-336 | inserted unless empty or already there |
| `FriendListClass.FriendList.RemoveFromMapIfAlreadyInIt` | coreapi/friend.c:338-359 | the walk over the key erases the friend's own pair |
| `FriendListClass.FriendList.AddPhoneNumber` | coreapi/friend.c:444-458 | number and index entry added, agreement kept |
| `FriendListClass.FriendList.RemovePhoneNumber` | coreapi/friend.c:469-484 | number and index entry removed, agreement kept exactly when safe |
| `FriendListClass.FriendList.AddAddressesAndNumbersIntoMaps` | coreapi/friend.c:1625-1657 | all URIs of the friend are added, numbers first |
| `FriendListClass.FriendList.InvalidateFriendsMaps` | coreapi/friendlist.c:657-668 | rebuilds an index in agreement with the list |
| `FriendListClass.FriendList.ImportFriend` | coreapi/friendlist.c:670-685 | a listed friend is refused; otherwise prepended and indexed |
| `FriendListClass.FriendList.RemoveFriend` | coreapi/friendlist.c:696-775 | an unknown friend is refused; otherwise unlinked, with the index afterwards in agreement exactly when safe |
| `FriendListClass.FriendList.FindFriendsByUri` | coreapi/friendlist.c:906-924 | exactly the listed owners, each once |
| `FriendListClass.FriendList.FindFriendByUri` | coreapi/friendlist.c:893-904 | some listed owner, or nothing exactly when there is none |
| `FriendListClass.FriendList.ResourceList` | coreapi/friendlist.c:190-200 | the loop with a remembered previous key emits each URI of the map once |

## Left out

LIME

- SQLite, libxml2, hexadecimal, base64, HMAC and AES-GCM are foreign. A document is its tree; digests are 32 octets and opening inverts sealing under equal key, vector and associated data; nothing else is assumed, in particular no unforgeability. Queries and cache writes do not fail, and rows come in table order.
- `zuid` is a primary key, and self URI, peer URI and peer ZID identify a row; the caches are otherwise arbitrary, malformed rows included.
- LimeProtocol.RatchetStaysInStep: runs exclude a send under index 2^32-1, after which the 32-bit index would wrap around; LimeKeys.LimeKey.Derive does model the wrap.
- LimeCache.Cache.SetCachedKey: the source writes the validity date through a column pointer that is never given storage; the model stores an 8-octet blob, and takes the date as a parameter since it depends on the clock.
- LimeKeys.LimeKey.Decrypt: a sealed text shorter than its 16-octet tag is rejected, where the source subtracts the tag length from it unchecked.
- LimeMessage.DecryptMultipartMessage: the sender ZID of a document is 12 octets, the size of the source's buffer.
- The 16-bit counter of collected keys, and the engine callbacks that wrap these functions.

Tunnel

- The foreign tunnel client answers through parameters: readiness, running calls, ids of background tasks. HTTP proxy, certificates, SIP registration and RTP sockets are left out.
- A change of reachability and its callback are one step. `reconnect` and the invalid mode value are left out.
- TunnelRuns.DetectionVerdict: changing mode, network or mirrors is excluded, as it restarts, cancels or invalidates the detection.
- TunnelDetection.VerdictsAreOwn: stopping a mirror client, or destroying it, is taken to cancel its test, and starting one to replace its test; these clients are foreign. Tunnel connection events are handled between mirror results rather than queued with them, since they move no detection.
- LinphoneTunnelClass.ManagerMirrorsList: dual mode stays fixed and configurations are not edited after being added, as changing either leaves the manager's lists behind.
- `atoi` outside the range of an int is undefined in C; the model wraps, and no printed number is outside it.

Conference

- LocalConference, entering and leaving, and the local audio stream.
- The invitation of the focus returns a call, URIs compare by equality, and terminating a call is a request whose effect comes back as an event.
- ConferenceRuns.TransfersAreRight: assumes each call is added once and the focus reports Connected before it streams, and a run without the undefined event; ConferenceRuns.CallbackPath assumes only the last.

Credentials and friends

- Retrying pending authentications and writing the configuration file after an add, and the lookup for TLS.
- Credentials.RealmsMatch: two realms that differ are shorter than 127 characters, as the source copies them into fixed buffers; the store asks it of all its realms.
- The ref-key map, presence aliases, CardDAV and the friends database.
- Editing the addresses of a listed friend: the vCard answers from a cached list of addresses (coreapi/vcard.cc:300-311), so the friend's addresses need not be those just edited. Editing its numbers is modelled, for a friend that has a vCard.
- The URI of a phone number is a fixed function, a multimap find returns the first pair of its key, and an insertion goes after the last.

Reference counts, freeing of memory and logging, and everything else in the repository, are left out.
