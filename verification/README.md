# Proofs about XMDM

XMDM manages Android devices: a Go server with Postgres tables, an MQTT broker in between, and a
Kotlin launcher on the device. These files model the parts whose correctness depends on whole
runs or on all inputs, and prove what those parts are for.

- `CommandTable`, `CommandRuns`, `CommandOutcomes`, `CommandStore`: the commands table, its SQL
  statements, whole runs of it, what each operation means column by column, and the store object.
- `ResultJournal`, `CommandCoordinator`: the device's bounded journal of results and the
  coordinator that executes each command at most once.
- `CommandProtocol`: server, two transports and devices as one state machine. A packet once sent
  stays deliverable for ever, so loss, duplication, delay and reordering are all runs of it.
- `MqttFraming`, `MqttCodecs`: MQTT 3.1.1 packets as bytes, and the three codecs as loops.
- `CanonicalJson`, `CanonicalParser`, `CanonicalWriter`, `ConfigSnapshot`: the canonical text of
  a configuration snapshot, a parser that undoes it, the recursive writer, and signing.
- `RateLimiter`: token buckets. `Enrollment`, `EnrollmentOutcomes`, `EnrollmentStore`: tokens and
  device lifecycle.
- `ManagedApps`, `TemplateRender`, `TemplateNames`, `ArtifactCleanup`, `ArtifactRaces`,
  `KioskPolicy`, `Pagination`: reconcilers, renderers and the invariants around them.
- `Sorting`, `Text`, `Wrappers`: shared helpers.

Objects that the source updates in place are classes whose methods are proved equal to
functions on values; the theorems are about those functions and their runs. Clock readings,
drawn ids and secrets, replies of other systems and every failure are parameters.

Where the code does less than it is meant to, the exact condition is proved:

- The device's Gson escapes `'` and `=` in strings and the server does not, so a snapshot with
  either character is refused by the device (`DeviceAcceptsServer`, `ApostropheRefused`).
- Look-ahead paging asks for one row more than the store's cap allows when the page size is the
  cap itself, and then never offers a next page (`BrowseEnumerates`, `WalkEnumerates`).
- A publish is readable by the device at QoS 0 only, and a topic or string needs fewer than 65536
  bytes, because its length is cast to 16 bits (`PayloadRoundTrip`, `StringRoundTrip`). The
  server publishes at QoS 1 and the device subscribes at QoS 0, so the broker relays at QoS 0
  (section 3.8.4 of MQTT 3.1.1).
- Templates are rendered in map order, so with keys that are prefixes of each other, or extras
  that share a key, the advertised checksum need not be that of the bytes served
  (`ChecksumAlwaysMatchesIff` over the names of the extras, `ChecksumDiffers` for an input).
- The dashboard reads a policy, and the store runs a SELECT and then an UPDATE, all without a
  transaction. An update whose copy was in kiosk mode and whose SELECT finds it off writes kiosk
  mode without a passcode, also if kiosk mode is back on by the time of the UPDATE
  (`InterleavedSafeIff`, `StaleReadLosesPasscode`, `SelectRaceLosesPasscode`).
- The server reads a snapshot's numbers through float64 and the device does not, so a number
  beyond 2^53 can be refused by the device or share a version with another (`DeviceAcceptsServer`,
  `LargeNumberLost`).
- `ListPending` cuts a page at 100 rows whatever larger limit is asked for, so consecutive larger
  pages lose rows (`PagesArePoll`).
- A cleanup run does not look again at what it has listed, so an orphan that is reused meanwhile
  can lose its object, and with an app version its row too (`ReuseLosesObject` for an input,
  `AlwaysSafeIff` before the run, `ReuseSafeIff` for given faults and references).
- A snapshot that wants one package at two versions cannot be reconciled (`RunReconciles`).
- `RevokeToken` revokes a token that is past its expiry, and `Acknowledge` rolls its own lazy
  expiry back when it reports not found; both are modelled as the code does them.

The status `pending` of a new device row and the unique keys on token hashes and storage keys
are those of `server/migrations`. `dafny verify dfyconfig.toml` checks everything.

## Model

| member | source | states |
|---|---|---|
| `CommandProtocol.AckedMeansExecuted` | app/src/main/java/com/xmdm/launcher/commands/DeviceCommandCoordinator.kt:10-60 | over every run of server, lossy, duplicating, reordering and delaying transports and devices with any clocks: a finished row carries the status, message and details of an actual executor run of that same command on its device, and reads acked exactly if that executor returned "acked", failed exactly if it returned "failed" or threw |
| `CommandProtocol.ExecutedAsRequested` | server/internal/commands/postgres/store.go:40-89 | over every run: what an executor runs under an id has the type and payload of a successful Enqueue that addressed this device and drew this id; only an empty object as payload arrives as none |
| `CommandProtocol.RowWasAsked` | server/internal/commands/postgres/store.go:40-89 | every row of every reachable table holds what some successful Enqueue asked for |
| `CommandProtocol.ExecutedExactlyOnce` | app/src/main/java/com/xmdm/launcher/commands/DeviceCommandCoordinator.kt:19-38 | over every run: exactly one execution, if the first was remembered and fewer than maxEntries other commands were remembered on that device since; the row then shows that execution's status |
| `CommandProtocol.ReexecutionIsRare` | app/src/main/java/com/xmdm/launcher/commands/DeviceCommandCoordinator.kt:19-38 | over every run, whatever failed: two executions of one command on one device, the first remembered, have at least maxEntries other remembered commands between them |
| `CommandProtocol.ExecuteInv` | server/internal/commands/postgres/store.go:284-348 | the invariant that ties table, packets, acknowledgements, journals and executor logs together holds in every reachable world |
| `CommandProtocol.NextInv` | server/internal/commands/postgres/store.go:284-348 | every single step of server, transport or device keeps that invariant |
| `CommandRuns.FirstAckWins` | server/internal/commands/postgres/store.go:313-343 | after any operations in between, with any clocks, a later acknowledgement with any status gets the record that the first one stored and changes nothing |
| `CommandRuns.RunEvolves` | server/internal/commands/postgres/store.go:264-422 | under every interleaving of enqueue, markSent, acknowledge, polls and sweeps: acked, failed and expired absorb, a late markSent revives nothing, acked_at is set exactly on acked or failed rows and lies strictly before expires_at |
| `CommandRuns.StepEvolves` | server/internal/commands/postgres/store.go:264-422 | each operation only moves rows forward and never touches a finished one |
| `CommandRuns.StepOk` | server/internal/commands/postgres/store.go:264-422 | each operation keeps ids unique and every row's status, acked_at, result and expiry consistent |
| `CommandRuns.AckOutcome` | server/internal/commands/postgres/store.go:284-348 | an acknowledgement is accepted exactly for a row that is finished, and then answered from the table, or live at both clock readings, and then that row alone is written; otherwise nothing changes, the lazy expiry included |
| `CommandRuns.AckUnknown` | server/internal/commands/postgres/store.go:318-325 | an acknowledgement of a command that the device does not have is refused and changes nothing |
| `CommandRuns.AckedIndex` | server/internal/commands/postgres/store.go:284-348 | a successful acknowledgement leaves its reply in the table: the row was live and got this acknowledgement, or was finished and nothing changed |
| `CommandRuns.SweepsUnobservable` | server/internal/commands/postgres/store.go:264-282 | with a clock that does not go back, two runs that differ only in inserted expiry sweeps, bulk or per device, give every poll, page and acknowledgement the same answer |
| `CommandRuns.AckBothSim` | server/internal/commands/postgres/store.go:313-343 | tables that differ only in rows already due answer an acknowledgement alike and stay so related |
| `CommandRuns.PageIsSlice` | server/internal/commands/postgres/store.go:193-229 | whatever limit and offset are asked for, one page of ListPending is that normalised slice of the poll at the time of its SELECT, and its own sweep does not shift later pages |
| `CommandRuns.PagesArePoll` | server/internal/commands/postgres/store.go:193-262 | for every page size from 1 on, the pages of ListPending, end to end, are ListPendingForDevice at the same instant exactly when the size is within the store cap or one capped page holds all rows; beyond the cap rows between the pages are lost |
| `CommandRuns.PollExact` | server/internal/commands/postgres/store.go:231-262 | a poll returns exactly the live rows of the device, each as often as the table holds it, ordered by creation time and id |
| `CommandStore.Store.Enqueue` | server/internal/commands/postgres/store.go:40-89 | one row per target, column by column what was asked for, appended in one transaction: all of them or, on any error, none |
| `CommandStore.Store.PublishEnqueued` | server/internal/commands/postgres/store.go:391-411 | the publish loop: the messages that went out, and the table after the markSent statements that ran |
| `CommandStore.PublishMarks` | server/internal/commands/postgres/store.go:391-422 | publishing marks sent exactly the rows that are still queued and whose publish and markSent both went through; a failure spoils no other item |
| `CommandStore.Store.ListPendingForDevice` | server/internal/commands/postgres/store.go:231-262 | the poll: exactly the rows of the device that are queued or sent and not past their expiry |
| `CommandStore.Store.ListPending` | server/internal/commands/postgres/store.go:193-229 | the page holds live rows of the device only and is the page of the poll that the unswept table would have given; afterwards no due row of the device is pending, and no other row has changed |
| `CommandStore.Store.ExpireDueCommands` | server/internal/commands/postgres/store.go:264-282 | expires and counts exactly the tenant's rows that are queued or sent and past their expiry, and changes no other |
| `CommandStore.Store.Acknowledge` | server/internal/commands/postgres/store.go:284-348 | the transaction with its lazy expiry, which every branch but the acknowledging one rolls back; a row that it writes reads acked exactly for "acked", with this request as its result |
| `CommandStore.PublishedExact` | server/internal/commands/postgres/store.go:391-411 | the messages that went out are exactly the items whose publish succeeded, in order |
| `CommandOutcomes.EnqueueOutcome` | server/internal/commands/postgres/store.go:40-89 | each target gets the row that was asked for: id, tenant, device, type, payload and expiry, queued, with both times; earlier rows stay |
| `CommandOutcomes.EnqueueSucceeds` | server/internal/commands/postgres/store.go:40-89 | when it succeeds, and which error it answers otherwise |
| `CommandOutcomes.AckStores` | server/internal/commands/postgres/store.go:313-343 | what an acknowledgement does to its row in each of its states, acked exactly for "acked" and failed exactly for "failed" |
| `CommandOutcomes.PollMeans` | server/internal/commands/postgres/store.go:231-262 | a poll lists a row exactly while it is queued or sent and not past its expiry, by creation time and then id |
| `CommandOutcomes.PageMeans` | server/internal/commands/postgres/store.go:193-229 | a page is a slice of the poll: 25 rows unless asked for otherwise, 100 at most |
| `CommandOutcomes.SweepOutcome` | server/internal/commands/postgres/store.go:264-282 | a sweep marks exactly the overdue rows in its reach |
| `ResultJournal.BoundedIsTail` | app/src/main/java/com/xmdm/launcher/commands/DeviceCommandResultStore.kt:42-68 | after any sequence of records the bounded journal is the last maxEntries entries of the never-trimmed, deduplicated history |
| `ResultJournal.ForgetNeedsMany` | app/src/main/java/com/xmdm/launcher/commands/DeviceCommandResultStore.kt:35-51 | an id that was recorded and is not found any more had at least maxEntries other ids recorded after it |
| `ResultJournal.TrimThenRecord` | app/src/main/java/com/xmdm/launcher/commands/DeviceCommandResultStore.kt:61-68 | trimming before a record or only after it gives the same journal |
| `ResultJournal.HistoryUnique` | app/src/main/java/com/xmdm/launcher/commands/DeviceCommandResultStore.kt:42-51 | no id is stored twice |
| `ResultJournal.LookupRecorded` | app/src/main/java/com/xmdm/launcher/commands/DeviceCommandResultStore.kt:35-51 | what was recorded is found again |
| `ResultJournal.LookupOthers` | app/src/main/java/com/xmdm/launcher/commands/DeviceCommandResultStore.kt:35-51 | recording changes what is found for another id only by forgetting it, and only in a full journal |
| `ResultJournal.LookupFinds` | app/src/main/java/com/xmdm/launcher/commands/DeviceCommandResultStore.kt:35-40 | an id is found exactly if it is not blank and recorded |
| `CommandCoordinator.JournalStore.Lookup` | app/src/main/java/com/xmdm/launcher/commands/DeviceCommandResultStore.kt:35-40 | finds exactly the non-blank ids that are recorded, with a result recorded under that id |
| `CommandCoordinator.JournalStore.Record` | app/src/main/java/com/xmdm/launcher/commands/DeviceCommandResultStore.kt:42-51 | replaces the entry of the id, appends the new one, keeps at most maxEntries |
| `CommandCoordinator.RerunsFarApart` | app/src/main/java/com/xmdm/launcher/commands/DeviceCommandCoordinator.kt:19-38 | two executor runs of one non-blank id, the first remembered, are separated by at least maxEntries other remembered ids |
| `CommandCoordinator.RanOnce` | app/src/main/java/com/xmdm/launcher/commands/DeviceCommandCoordinator.kt:19-38 | with fewer than maxEntries others remembered since, there is no second run |
| `CommandCoordinator.HandleKeepsLog` | app/src/main/java/com/xmdm/launcher/commands/DeviceCommandCoordinator.kt:19-38 | whatever a call meets, the journal stays what the log of runs wrote, every run in the log had no journal entry to answer from, and its outcome is what its executor did |
| `CommandCoordinator.AckReports` | app/src/main/java/com/xmdm/launcher/commands/DeviceCommandCoordinator.kt:40-53 | an acknowledgement reports the outcome of a run of its own command, this one or a remembered one |
| `CommandCoordinator.HandleOutcome` | app/src/main/java/com/xmdm/launcher/commands/DeviceCommandCoordinator.kt:19-38 | one call, case by case: an unreadable journal stops it, a remembered result is given again, else one run, of which a returned result is reported as it is, a thrown message as "failed" with that message, and a cancellation not at all |
| `CommandCoordinator.AckCarries` | app/src/main/java/com/xmdm/launcher/commands/DeviceCommandCoordinator.kt:40-73 | an acknowledgement carries status and message of the result, and its details with the command's own over them, key by key |
| `CommandCoordinator.PollReports` | app/src/main/java/com/xmdm/launcher/commands/DeviceCommandCoordinator.kt:85-112 | a poll sends one acknowledgement per command handled, each reporting a run of that command, goes on exactly while acknowledgements succeed, and stops short only at one that threw or at a call that met an unreadable journal or a cancellation |
| `CommandCoordinator.Coordinator.HandleIncomingCommand` | app/src/main/java/com/xmdm/launcher/commands/DeviceCommandCoordinator.kt:10-60 | lookup, else execute and remember; the journal, the log of runs and the acknowledgement are those of the case analysis, and a new run logs this command with what its executor did |
| `CommandCoordinator.Coordinator.PollAndExecute` | app/src/main/java/com/xmdm/launcher/commands/DeviceCommandCoordinator.kt:85-112 | the loop over polled commands: journal, log, acknowledgements and handled list are those of Poll |
| `MqttFraming.ValueOfEncode` | server/internal/push/mqtt.go:112-129 | decoding an encoded remaining length gives it back, for every length |
| `MqttFraming.EncodeSize` | server/internal/push/mqtt.go:112-129 | the encoding has at most k bytes exactly when the length is below 128^k |
| `MqttFraming.FourBytes` | server/internal/push/mqtt.go:155-168 | so four bytes are enough exactly for the lengths of section 2.2.3 of MQTT 3.1.1 |
| `MqttFraming.LengthLimits` | server/internal/push/mqtt.go:112-129 | the bytes at the limits of table 2.4 of MQTT 3.1.1 |
| `MqttFraming.ReadEnds` | server/internal/push/mqtt.go:155-168 | on every stream: where the length ends, and when it is too large or cut off |
| `MqttFraming.ReadEncoded` | server/internal/push/mqtt.go:155-178 | a reader gets an encoded length back and stops behind it, or refuses it as too large, exactly by size |
| `MqttFraming.CanonicalDigits` | server/internal/push/mqtt.go:170-178 | among the encodings of one length the encoder's is the shortest, and the only one of its size |
| `MqttFraming.ReadFramed` | app/src/main/java/com/xmdm/launcher/commands/MqttDeviceCommandTransport.kt:163-179 | both readers return a framed packet and leave the rest of the stream, exactly when its body is below 268435456 bytes |
| `MqttFraming.ReadersAgree` | app/src/main/java/com/xmdm/launcher/commands/MqttDeviceCommandTransport.kt:181-196 | on every byte stream the Go and the Kotlin reader accept or refuse alike, consume the same bytes and see the same header and body; their packets are equal iff the length came in its shortest form |
| `MqttFraming.StreamRoundTrip` | server/internal/push/mqtt.go:136-153 | reading the concatenation of any packets gives exactly those packets and leaves nothing over, with either reader |
| `MqttFraming.FrameInjective` | server/internal/push/mqtt.go:94-102 | different packets have different frames |
| `MqttFraming.PayloadRoundTrip` | app/src/main/java/com/xmdm/launcher/commands/MqttDeviceCommandTransport.kt:74-80 | the device recovers the payload of a publish exactly when it is relayed at QoS 0 and the topic's size fits in 16 bits |
| `MqttFraming.StringRoundTrip` | server/internal/push/mqtt.go:180-190 | a length-prefixed string (section 1.5.3 of MQTT 3.1.1) reads back, wherever it stands, exactly when it has fewer than 65536 bytes |
| `MqttFraming.PublishWire` | server/internal/push/mqtt.go:94-102 | the bytes of a publish packet for every QoS: header, length, topic size and packet id with the high byte first, payload |
| `MqttFraming.PayloadOf` | app/src/main/java/com/xmdm/launcher/commands/MqttDeviceCommandTransport.kt:74-80 | what the device takes for the payload of any packet, and when it gives up |
| `MqttFraming.NoPayload` | app/src/main/java/com/xmdm/launcher/commands/MqttDeviceCommandTransport.kt:198-211 | a packet whose length does not end has no payload |
| `MqttFraming.TopicRoundTrip` | server/internal/mqttdynsec/client.go:241-248 | the dynamic-security client finds topic and payload of every publish at QoS 0 |
| `MqttFraming.ResponseFound` | server/internal/mqttdynsec/client.go:230-263 | whatever other traffic precedes it, the response loop returns the body of the first message on its topic |
| `MqttFraming.AwaitFails` | server/internal/mqttdynsec/client.go:230-263 | the loop gives up at the first packet or topic that cannot be read |
| `MqttCodecs.EncodeRemainingLength` | server/internal/push/mqtt.go:112-129 | the encoding loop of the server |
| `MqttCodecs.ReadRemainingLength` | server/internal/push/mqtt.go:155-168 | reads one to four bytes off the stream: the length bytes, end of stream or too large |
| `MqttCodecs.DecodeRemainingLength` | server/internal/push/mqtt.go:170-178 | the accumulating loop computes the value of the digits |
| `MqttCodecs.ReadPacketGo` | server/internal/push/mqtt.go:136-153 | one packet off the stream, the rest left unread |
| `MqttCodecs.RemainingLengthBytes` | server/internal/mqttdynsec/client.go:406-413 | how many bytes the length takes |
| `MqttCodecs.RunCommandResponse` | server/internal/mqttdynsec/client.go:230-263 | the response loop over a stream |
| `MqttCodecs.ReadRemainingLengthKotlin` | app/src/main/java/com/xmdm/launcher/commands/MqttDeviceCommandTransport.kt:181-196 | the Kotlin loop in 32-bit arithmetic: no overflow, and the same answer as the Go reader |
| `MqttCodecs.DecodeRemainingLengthKotlin` | app/src/main/java/com/xmdm/launcher/commands/MqttDeviceCommandTransport.kt:198-211 | the unguarded Kotlin loop for every input: the number of bytes is always right, and the value is that of the digits reduced to 32 bits with sign, so the true one exactly while it fits |
| `MqttCodecs.ParseCommand` | app/src/main/java/com/xmdm/launcher/commands/MqttDeviceCommandTransport.kt:74-80 | the offset arithmetic on a publish packet, up to the JSON of the payload |
| `MqttCodecs.WriteRemainingLength` | app/src/main/java/com/xmdm/launcher/commands/MqttDeviceCommandTransport.kt:222-232 | the Kotlin loop appends the same bytes as the server's encoder |
| `MqttCodecs.EncodeRemainingLengthKotlin` | app/src/main/java/com/xmdm/launcher/commands/MqttDeviceCommandTransport.kt:234-238 | the same bytes in a fresh buffer |
| `MqttCodecs.PacketKotlin` | app/src/main/java/com/xmdm/launcher/commands/MqttDeviceCommandTransport.kt:150-156 | header, length and body, framed |
| `MqttCodecs.ReadPacketKotlin` | app/src/main/java/com/xmdm/launcher/commands/MqttDeviceCommandTransport.kt:163-179 | one packet, with its length re-encoded, the rest left unread |
| `MqttCodecs.ReadBody` | app/src/main/java/com/xmdm/launcher/commands/MqttDeviceCommandTransport.kt:169-177 | fills the body from chunks of any sizes, or hits the end of the stream |
| `MqttCodecs.ByteArrayOutputStreamCompat.Write` | app/src/main/java/com/xmdm/launcher/commands/MqttDeviceCommandTransport.kt:248-252 | appends one byte to the contents, growing the array when it is full |
| `MqttCodecs.ByteArrayOutputStreamCompat.WriteAll` | app/src/main/java/com/xmdm/launcher/commands/MqttDeviceCommandTransport.kt:254-258 | appends the bytes to the contents |
| `MqttCodecs.ByteArrayOutputStreamCompat.EnsureCapacity` | app/src/main/java/com/xmdm/launcher/commands/MqttDeviceCommandTransport.kt:262-271 | doubles the array until the size fits and keeps the contents |
| `MqttCodecs.ByteArrayOutputStreamCompat.ToByteArray` | app/src/main/java/com/xmdm/launcher/commands/MqttDeviceCommandTransport.kt:260 | a copy of exactly the contents |
| `CanonicalParser.CanonicalRoundTrip` | server/internal/enrollment/snapshot.go:112-181 | a parser recovers every normalised JSON value from its canonical text |
| `CanonicalParser.Unambiguous` | server/internal/enrollment/snapshot.go:112-181 | so two normalised values have the same canonical text only if they are equal |
| `CanonicalParser.CharRoundTrip` | server/internal/enrollment/snapshot.go:130-135 | one character of a string survives its escape (section 7 of RFC 8259), and no escape looks like the closing quote |
| `CanonicalParser.WritersAgree` | app/src/main/java/com/xmdm/launcher/sync/ConfigSnapshotVerifier.kt:44-91 | the device's printer and the server's give one value the same text exactly when no string in it has an apostrophe or an equals sign |
| `CanonicalParser.TextsAgree` | app/src/main/java/com/xmdm/launcher/sync/ConfigSnapshotVerifier.kt:44-91 | the server's text of one normalised value is the device's text of another exactly when they are one such value |
| `CanonicalJson.CanonicalKeysExact` | server/internal/enrollment/snapshot.go:183-210 | the key order contains each key exactly once |
| `CanonicalJson.FieldsInOrder` | server/internal/enrollment/snapshot.go:183-210 | an object of snapshot fields only has them in the snapshot's order |
| `CanonicalJson.OthersSorted` | server/internal/enrollment/snapshot.go:183-198 | any other object has its keys sorted |
| `CanonicalJson.EscapeShort` | server/internal/enrollment/snapshot.go:130-135 | the seven characters behind a backslash (section 7 of RFC 8259) |
| `CanonicalJson.EscapeControl` | server/internal/enrollment/snapshot.go:130-135 | the other control characters in hexadecimal |
| `CanonicalJson.EscapeHtml` | app/src/main/java/com/xmdm/launcher/sync/ConfigSnapshotVerifier.kt:44-91 | the five characters that both printers write in hexadecimal, and the two that only Gson does |
| `CanonicalJson.EscapeNot` | app/src/main/java/com/xmdm/launcher/sync/ConfigSnapshotVerifier.kt:44-91 | every other character is written as it is |
| `CanonicalWriter.SortedKeysUnique` | server/internal/enrollment/snapshot.go:193-198 | whatever order Go visits the map in, the sorted keys are the same list |
| `CanonicalWriter.CanonicalObjectKeys` | server/internal/enrollment/snapshot.go:183-199 | the loops compute the one order that the key set fixes |
| `CanonicalWriter.AppendCanonicalJSON` | server/internal/enrollment/snapshot.go:120-181 | appends exactly the canonical text of the value |
| `CanonicalWriter.AppendArray` | server/internal/enrollment/snapshot.go:144-154 | the array branch with its loop over the elements |
| `CanonicalWriter.AppendObject` | server/internal/enrollment/snapshot.go:155-172 | the object branch with its loop over the ordered keys |
| `CanonicalWriter.CanonicalJSON` | server/internal/enrollment/snapshot.go:112-118 | the whole text |
| `ConfigSnapshot.SignVerifies` | server/internal/enrollment/snapshot.go:39-70 | what was signed verifies; signing ignores an old signature and is idempotent |
| `ConfigSnapshot.FieldsNamed` | server/internal/enrollment/snapshot.go:15-37 | the names under which a device finds the parts |
| `ConfigSnapshot.BootstrapCarries` | server/internal/enrollment/snapshot.go:15-37 | a new snapshot carries what the stores gave, unsigned |
| `ConfigSnapshot.AcceptsMeans` | app/src/main/java/com/xmdm/launcher/sync/ConfigSnapshotVerifier.kt:15-42 | whose signature is accepted: by the server any base64 of the MAC, by the device its one text |
| `ConfigSnapshot.Refused` | server/internal/enrollment/snapshot.go:39-70 | what is refused without a secret or a signature, and with which error |
| `ConfigSnapshot.AcceptedMeansSigned` | server/internal/enrollment/snapshot.go:51-89 | a signature made for one snapshot is accepted on another exactly when the MACs of the two canonical texts are equal; without MAC collisions, only on the very same snapshot, up to numbers that are one float64 |
| `ConfigSnapshot.RevisionDependsOn` | server/internal/enrollment/snapshot.go:91-110 | the hashed text is a function of runtime, policy, apps, files and certificates, and tells any two of these apart, up to numbers that are one float64 |
| `ConfigSnapshot.VersionChangesWithContent` | server/internal/enrollment/snapshot.go:15-37 | two snapshots have the same version exactly when all content is equal up to float64, unless the hash collides |
| `ConfigSnapshot.DeviceAcceptsServer` | app/src/main/java/com/xmdm/launcher/sync/ConfigSnapshotVerifier.kt:15-42 | the device accepts a snapshot signed by the server exactly when no string in it holds an apostrophe or an equals sign and every number in it survives float64, through which the server alone reads it |
| `ConfigSnapshot.ApostropheRefused` | app/src/main/java/com/xmdm/launcher/sync/ConfigSnapshotVerifier.kt:15-42 | a policy named with an apostrophe verifies on the server and is refused by the device |
| `ConfigSnapshot.LargeNumberLost` | server/internal/enrollment/snapshot.go:112-118 | two version codes beyond 2^53 that are one float64 give one version, and the device refuses the one that is not printed back |
| `ConfigSnapshot.ExactSurvives` | server/internal/enrollment/snapshot.go:112-118 | reading a value through float64 and printing it again changes nothing exactly when each of its numbers survives |
| `RateLimiter.WindowBound` | server/internal/httpx/rate_limit.go:81-120 | in every window of every traffic one bucket admits at most Burst plus the window's length in refill intervals, for any clock and any rules that share the bucket within that burst and refill |
| `RateLimiter.HandlerBound` | server/internal/httpx/rate_limit.go:44-131 | for a handler whose rules have distinct, non-empty names: in every window of every run one host is admitted under one rule, whatever the paths, at most Burst times plus once per refill interval |
| `RateLimiter.HostsApart` | server/internal/httpx/rate_limit.go:122-131 | whatever other hosts do under any rules, a host gets the answers it would get alone; so its first request is admitted |
| `RateLimiter.BucketIs` | server/internal/httpx/rate_limit.go:122-131 | with distinct names, requests share a bucket exactly when they are of one host under one rule |
| `RateLimiter.TakeExact` | server/internal/httpx/rate_limit.go:81-120 | one request exactly: the refill with its fractions and cap, when it is admitted, and what is left |
| `RateLimiter.FirstAdmitted` | server/internal/httpx/rate_limit.go:81-120 | a first request is admitted, and a rule without a burst limits nothing |
| `RateLimiter.AnyHandlerBound` | server/internal/httpx/rate_limit.go:44-120 | whatever the names of the rules, no window of a run exceeds the largest burst at the fastest refill |
| `RateLimiter.DefaultRulesNamed` | server/internal/api/v1/router.go:117-144 | the router's rules have distinct, non-empty names |
| `RateLimiter.TokensInRange` | server/internal/httpx/rate_limit.go:81-120 | tokens stay between 0 and the burst that caps a bucket, whatever the traffic, the clock and the rules that share the bucket |
| `RateLimiter.RetryAfterHonest` | server/internal/httpx/rate_limit.go:44-58 | a denied client that waits the advertised seconds is admitted next, for every traffic and non-decreasing clock, exactly when those seconds cover one refill interval; so for every rule with RetryAfter >= RefillInterval |
| `RateLimiter.DefaultRulesHonest` | server/internal/api/v1/router.go:117-144 | all default rules keep that promise |
| `RateLimiter.VolleyDrains` | server/internal/httpx/rate_limit.go:81-120 | n simultaneous first requests leave Burst - n tokens |
| `RateLimiter.Handler.MatchRule` | server/internal/httpx/rate_limit.go:60-79 | the rule found applies by method and path prefix, and no other that applies has a longer prefix, or the same and comes earlier; none is found only if none applies |
| `RateLimiter.Handler.Allow` | server/internal/httpx/rate_limit.go:81-120 | admits exactly what the traffic so far leaves a token for, and touches only the bucket of its key |
| `RateLimiter.Handler.ServeHTTP` | server/internal/httpx/rate_limit.go:44-58 | requests without a rule pass uncounted; others are served or refused with the rule's advertised seconds |
| `Enrollment.EnrollmentSafety` | server/internal/enrollment/postgres/store.go:78-172 | over every run from an empty database: a token binds at most one device and a device is bound at most once, and every enrolled or active device was bound by a token that is consumed, within its validity |
| `Enrollment.RunEvolves` | server/internal/device/postgres/store.go:300-395 | over every run: a token leaves issued once and never changes again, a device never returns to pending or from active to enrolled, and retired stays retired |
| `Enrollment.StepEvolves` | server/internal/enrollment/postgres/store.go:205-305 | each operation moves tokens and devices only forward |
| `Enrollment.StepKeeps` | server/internal/enrollment/postgres/store.go:78-172 | each operation keeps keys unique, rows consistent and every binding justified |
| `Enrollment.BindOutcome` | server/internal/enrollment/postgres/store.go:78-172 | a binding succeeds exactly when the token is issued and not due and the device is pending; it writes those two rows only, and a refused one at most marks an overdue token expired |
| `Enrollment.UploadOutcome` | server/internal/deviceinfo/postgres/store.go:39-73 | an upload is accepted exactly from a device that shows its secret and is not deleted, retired or wiped; it promotes enrolled to active and changes no other device |
| `Enrollment.RetiredForEver` | server/internal/device/postgres/store.go:354-395 | after a retirement no run lets the device authenticate or upload again, with any secret |
| `Enrollment.TokenSpent` | server/internal/enrollment/postgres/store.go:256-305 | after a binding no run lets its token bind, validate or be consumed again |
| `EnrollmentOutcomes.RevokedForEver` | server/internal/enrollment/postgres/store.go:205-241 | after a revocation no run lets the token bind, validate or be consumed again |
| `EnrollmentOutcomes.ConsumedForEver` | server/internal/enrollment/postgres/store.go:256-305 | nor after it was consumed |
| `EnrollmentOutcomes.SpentForEver` | server/internal/enrollment/postgres/store.go:256-305 | a token that is no longer issued is refused for ever by every call, as what it is |
| `EnrollmentOutcomes.WhatSpends` | server/internal/enrollment/postgres/store.go:205-305 | the only ways in which an issued token stops being issued |
| `EnrollmentOutcomes.IssueOutcome` | server/internal/enrollment/postgres/store.go:45-68 | when a token is issued, and the row it gets |
| `EnrollmentOutcomes.InspectOutcome` | server/internal/enrollment/postgres/store.go:256-305 | accepted exactly while issued and not due; consuming marks it, validating does not, a due one is marked expired |
| `EnrollmentOutcomes.RevokeOutcome` | server/internal/enrollment/postgres/store.go:205-241 | a revocation succeeds exactly for an issued token, whatever its expiry, and marks that row only |
| `EnrollmentOutcomes.ExpireOutcome` | server/internal/enrollment/postgres/store.go:243-254 | a sweep marks exactly the issued tokens that are due |
| `EnrollmentOutcomes.NoSuchToken` | server/internal/enrollment/postgres/store.go:205-305 | what is answered for secrets and ids that lead to no token |
| `EnrollmentOutcomes.EmptyArguments` | server/internal/enrollment/postgres/store.go:205-305 | what is answered when an argument is empty |
| `EnrollmentOutcomes.BindRefused` | server/internal/enrollment/postgres/store.go:78-172 | why a binding is refused: the device's status first, then the token's |
| `EnrollmentOutcomes.CreateOutcome` | server/internal/device/postgres/store.go:45-91 | when a device is created, and the row it gets |
| `EnrollmentOutcomes.UpdateOutcome` | server/internal/device/postgres/store.go:300-352 | what an update writes, and to which row |
| `EnrollmentOutcomes.RetireOutcome` | server/internal/device/postgres/store.go:354-379 | a device of any status is retired, and only that device |
| `EnrollmentOutcomes.AuthenticateOutcome` | server/internal/device/postgres/store.go:381-395 | whose secret is accepted, in which statuses |
| `EnrollmentOutcomes.UploadRefused` | server/internal/deviceinfo/postgres/store.go:39-73 | why an upload is refused |
| `EnrollmentOutcomes.NoSuchDevice` | server/internal/device/postgres/store.go:300-395 | what is answered for a device that the tenant does not have |
| `Enrollment.BoundSecretWorks` | server/internal/enrollment/postgres/store.go:83-172 | the secret handed out by the binding authenticates the device, and no other does, until it is retired or given another secret |
| `EnrollmentStore.Store.IssueToken` | server/internal/enrollment/postgres/store.go:45-68 | inserts one issued token |
| `EnrollmentStore.Store.InspectToken` | server/internal/enrollment/postgres/store.go:256-305 | validates or consumes a token; an overdue one is marked expired and reported so |
| `EnrollmentStore.Store.BindDevice` | server/internal/enrollment/postgres/store.go:78-172 | consumes the token, enrols the pending device under a fresh secret, or changes nothing |
| `EnrollmentStore.Store.RevokeToken` | server/internal/enrollment/postgres/store.go:205-241 | a success has turned one issued token of this id revoked, expired by the clock or not, and left every other row alone; an error has changed nothing |
| `EnrollmentStore.Store.ExpireTokens` | server/internal/enrollment/postgres/store.go:243-254 | no issued token is left that is due at the given time |
| `EnrollmentStore.Store.UpdateToken` | server/internal/enrollment/postgres/store.go:353-363 | the UPDATE by tenant and id rewrites status, consumption and revocation marks of that row only; its keys and validity and every other row stay, so each secret leads to the row that it led to before |
| `EnrollmentStore.Store.CreateDevice` | server/internal/device/postgres/store.go:45-91 | inserts a pending device |
| `EnrollmentStore.Store.UpdateDevice` | server/internal/device/postgres/store.go:300-352 | renames a device of any status; an empty secret keeps the old one |
| `EnrollmentStore.Store.RetireDevice` | server/internal/device/postgres/store.go:354-379 | retires from any status and stamps the time |
| `EnrollmentStore.Store.Authenticate` | server/internal/device/postgres/store.go:381-395 | accepts exactly the stored secret's hash, in every status but retired and wiped |
| `EnrollmentStore.Store.Upload` | server/internal/deviceinfo/postgres/store.go:39-73 | an accepted upload turns enrolled into active |
| `ManagedApps.RunReconciles` | app/src/main/java/com/xmdm/launcher/apps/ManagedAppInstallCoordinator.kt:93-168 | a run to the end leaves every desired package at its version, removes exactly previous minus desired and touches nothing else, on every device, exactly when no package is wanted at two versions |
| `ManagedApps.RerunConverges` | app/src/main/java/com/xmdm/launcher/apps/ManagedAppInstallCoordinator.kt:93-168 | after any number of runs that failed anywhere, one full run reaches the state that a single undisturbed run would have reached |
| `ManagedApps.SecondRunIdle` | app/src/main/java/com/xmdm/launcher/apps/ManagedAppInstallCoordinator.kt:111-162 | a further run with previous equal to desired has an empty plan |
| `ManagedApps.ReconciledUnique` | app/src/main/java/com/xmdm/launcher/apps/ManagedAppInstallCoordinator.kt:93-168 | there is only one reconciled state |
| `ManagedApps.LauncherLastStable` | app/src/main/java/com/xmdm/launcher/apps/ManagedAppInstallCoordinator.kt:204-218 | launcherLast is a permutation with launcher entries last, each half in its old order |
| `ManagedApps.InstallsExact` | app/src/main/java/com/xmdm/launcher/apps/ManagedAppInstallCoordinator.kt:111-152 | installed are exactly the apps that are not there at their version, in order |
| `ManagedApps.LauncherInstalledLast` | app/src/main/java/com/xmdm/launcher/apps/ManagedAppInstallCoordinator.kt:204-218 | the launcher is installed after every other app |
| `ManagedApps.RemovedExact` | app/src/main/java/com/xmdm/launcher/apps/ManagedAppInstallCoordinator.kt:154-162 | uninstalled are exactly the previous packages not desired any more, each once, in order |
| `ManagedApps.InstallsFirst` | app/src/main/java/com/xmdm/launcher/apps/ManagedAppInstallCoordinator.kt:111-162 | nothing is uninstalled before everything is installed |
| `ManagedApps.OrderLauncherLast` | app/src/main/java/com/xmdm/launcher/apps/ManagedAppInstallCoordinator.kt:204-218 | the loop with its two lists |
| `ManagedApps.InstallMissing` | app/src/main/java/com/xmdm/launcher/apps/ManagedAppInstallCoordinator.kt:111-152 | the install loop does the planned installs in order, up to and exactly at the first call that throws, and lists what it installed |
| `ManagedApps.UninstallRemoved` | app/src/main/java/com/xmdm/launcher/apps/ManagedAppInstallCoordinator.kt:154-162 | the uninstall loop does the planned removals in order, up to and exactly at the first call that throws |
| `ManagedApps.Apply` | app/src/main/java/com/xmdm/launcher/apps/ManagedAppInstallCoordinator.kt:93-168 | returns normally exactly when no call of its plan throws, and then reconciles and reports what it did; otherwise the plan is done up to the throwing call |
| `TemplateRender.ChecksumMatches` | server/internal/enrollment/http/routes.go:436-465 | on given extras: the checksum advertised in the snapshot is that of the bytes served later, whatever map orders the two requests met, when no key is a prefix of another and extras that set one key agree |
| `TemplateNames.ChecksumAlwaysMatchesIff` | server/internal/enrollment/http/routes.go:436-465 | for each single device, on names alone: over all contents, iteration orders and values of the extras that do not render to nothing, the advertised checksum always matches the served bytes exactly when no template key is a prefix of another and no two extras normalise to one key |
| `TemplateNames.SafeNamesMatch` | server/internal/enrollment/http/routes.go:436-465 | with such names the checksum matches, also where extras render to nothing |
| `TemplateNames.ChecksumDiffers` | server/internal/managedfiles/render.go:8-37 | the extras A = x and AB = yy: content AB is advertised as the checksum of xB and served as yy under other map orders |
| `TemplateRender.OrderMattersIff` | server/internal/managedfiles/render.go:8-19 | the rendering is the same for all iteration orders, values and contents exactly when no key is a prefix of another; the same if only non-empty values are looked at |
| `TemplateRender.ValuesOrderFreeIff` | server/internal/managedfiles/render.go:21-37 | the values are the same for all visiting orders exactly when extras that set one key agree on it |
| `TemplateRender.ValueAt` | server/internal/managedfiles/render.go:21-37 | each key has the value of an extra that sets it, else the device default |
| `TemplateRender.RendersKey` | server/internal/managedfiles/render.go:8-19 | where a key stands first in a text: what is before it stays, the key becomes its value, the rest is rendered alike |
| `TemplateRender.KeysExact` | server/internal/managedfiles/render.go:39-70 | the template keys of one extra, exactly |
| `TemplateRender.ValueIs` | server/internal/managedfiles/render.go:72-108 | the text of an extra that is no array |
| `TemplateRender.ArrayValue` | server/internal/managedfiles/render.go:72-108 | an array is its elements behind commas, those without a text left out |
| `TemplateRender.NoKeyNoChange` | server/internal/managedfiles/render.go:8-19 | content without any of the keys is served unchanged |
| `TemplateRender.NoExtrasSafe` | server/internal/managedfiles/render.go:21-37 | a device without extras always meets the two conditions |
| `TemplateRender.ComputeTemplateValues` | server/internal/managedfiles/render.go:21-37 | the loop over the extras in any order |
| `TemplateRender.RenderTemplate` | server/internal/managedfiles/render.go:8-19 | the output is that of some map orders, and where order cannot show that of the sorted ones |
| `ArtifactCleanup.SafeAtEveryFailure` | server/internal/artifactcleanup/cleanup.go:44-62 | wherever a run stops: referenced and other tenants' rows are unchanged, only orphans' objects go, and no object is left without a row |
| `ArtifactCleanup.ReferencedObjectsKept` | server/internal/artifactcleanup/cleanup.go:44-62 | with storage keys unique per tenant, referenced artifacts keep their objects wherever a run stops |
| `ArtifactCleanup.CompleteRun` | server/internal/artifactcleanup/cleanup.go:44-64 | a run without failure removes exactly the orphans and their objects |
| `ArtifactCleanup.SharedKeyLosesObject` | server/internal/artifactcleanup/cleanup.go:55-57 | an artifact that is no orphan keeps its object exactly when no orphan of the cleaned tenant shares its key |
| `ArtifactCleanup.RerunFinishes` | server/internal/artifactcleanup/cleanup.go:34-64 | after any sequence of runs, each on its own listing and each stopped anywhere by any failure, one complete run reaches the state of a single complete run in their place |
| `ArtifactCleanup.AttemptsProgress` | server/internal/artifactcleanup/cleanup.go:44-62 | every such sequence only moves towards that state |
| `ArtifactRaces.ReuseSafeIff` | server/internal/artifactcleanup/cleanup.go:44-62 | a run with references made before any of its turns: an artifact keeps its object, and its row, exactly by a condition on the listing, the faults and the references alone, namely which earlier turn fails or is held by a file or certificate, and what its own turn does |
| `ArtifactRaces.AlwaysSafeIff` | server/internal/files/postgres/store.go:144-156 | what a caller who reuses an artifact can rely on before the run: row and object survive whatever fails, exactly when the artifact was not listed, or a file or certificate holds an earlier candidate by that candidate's turn |
| `ArtifactRaces.ReuseLosesObject` | server/internal/files/postgres/store.go:144-156 | one orphan and no fault: a file that reuses it before its turn keeps the row and loses the object, an app version loses both |
| `ArtifactRaces.HeldRowsStay` | server/internal/artifactcleanup/cleanup.go:44-62 | a file or certificate never loses the row of its artifact, whenever during the run it was created; only the object can be gone |
| `ArtifactCleanup.EnsureKeepsUnique` | server/internal/files/postgres/store.go:144-176 | ensureArtifact keeps keys unique per tenant and returns a row that describes the same bytes |
| `ArtifactCleanup.EnsureOutcome` | server/internal/files/postgres/store.go:144-176 | a known key is reused for the same bytes and refused for others, an unknown one gets a new active row |
| `ArtifactCleanup.RetiredFirst` | server/internal/artifactcleanup/cleanup.go:44-62 | wherever a run stops, a row whose object it deleted is retired or gone |
| `ArtifactCleanup.Stores.ListOrphanArtifacts` | server/internal/files/postgres/store.go:192-235 | lists each unreferenced artifact of the tenant exactly once |
| `ArtifactCleanup.Stores.Run` | server/internal/artifactcleanup/cleanup.go:23-65 | Deleted is a prefix of Candidates, Retired what was active up to there, and the stores are in the state of the sweep |
| `KioskPolicy.KioskSafety` | server/internal/admin/http/dashboard_policy.go:327-348 | over every sequence of atomic dashboard requests a kiosk policy has an exit passcode, and devices get a non-empty hash |
| `KioskPolicy.UpdateSeenSafe` | server/internal/policy/postgres/store.go:156-181 | one update, with the dashboard's copy, the row that the SELECT returned and the row that the UPDATE meets all different: kiosk policies stay configured exactly unless the form turns kiosk mode on without a passcode, the copy was in kiosk mode and the SELECT found it off |
| `KioskPolicy.InterleavedSafeIff` | server/internal/policy/postgres/store.go:147-188 | over every history of requests whose reads, SELECTs and UPDATEs interleave in any way: every state has a passcode and a hash in each kiosk policy exactly when no update loses the passcode in that way |
| `KioskPolicy.StoredConfigured` | server/internal/policy/postgres/store.go:156-178 | what the merge stores is configured, where kiosk mode needs it, exactly unless the passcode is lost |
| `KioskPolicy.StaleReadLosesPasscode` | server/internal/admin/http/dashboard_policy.go:344-346 | a history with a stale dashboard copy that leaves a kiosk policy without passcode |
| `KioskPolicy.SelectRaceLosesPasscode` | server/internal/policy/postgres/store.go:156-181 | a second one, where the policy is back in kiosk mode, with a passcode, by the time of the UPDATE |
| `KioskPolicy.StepSafe` | server/internal/policy/postgres/store.go:147-188 | each atomic dashboard request keeps every kiosk policy configured |
| `KioskPolicy.CreateStores` | server/internal/admin/http/dashboard_policy.go:327-360 | the row that a create form becomes, field by field |
| `KioskPolicy.UpdateStores` | server/internal/policy/postgres/store.go:147-188 | what an update form writes, field by field, and that it writes no other row |
| `KioskPolicy.FormRefused` | server/internal/admin/http/dashboard_policy.go:327-348 | which forms change nothing |
| `KioskPolicy.StoreRefuses` | server/internal/policy/postgres/store.go:37-52 | what the store answers to requests that it refuses |
| `KioskPolicy.MergeKeeps` | server/internal/policy/postgres/store.go:190-210 | the merge keeps every other new restriction and is configured exactly when the new passcode is given or the old document was configured |
| `KioskPolicy.MergeKeepsDeviceHash` | server/internal/enrollment/http/routes.go:375-398 | a merge without new passcode leaves the hash sent to devices alone, exactly unless the old document held a hash that is not its passcode's |
| `KioskPolicy.BlankKeepsCode` | server/internal/enrollment/http/routes.go:375-398 | in every reachable state, updating a kiosk policy with a blank passcode leaves the devices' exit code as it was |
| `KioskPolicy.Store.CreatePolicy` | server/internal/policy/postgres/store.go:37-52 | a created policy is one new row, and keeps the table's kiosk policies configured exactly if its own request is configured where it turns kiosk mode on |
| `KioskPolicy.Store.UpdatePolicy` | server/internal/policy/postgres/store.go:147-188 | SELECT, then UPDATE on whatever the table has become meanwhile; what is written is configured if the SELECT met a kiosk policy or the request is configured |
| `Pagination.BrowseEnumerates` | server/internal/admin/http/dashboard.go:2433-2447 | whatever page size is asked for, browsing a list from its first page shows every row once, in order, unless the size is the cap or more and the list is longer than the cap |
| `Pagination.AllPagesIff` | server/internal/pagination/pagination.go:10-27 | consecutive pages of which each shows up to a cap give all rows exactly when the page size is within the cap or one page shows everything |
| `Pagination.LinkMeans` | server/internal/admin/http/dashboard.go:2433-2438 | a link that names a page and a valid size asks for exactly that page |
| `Pagination.PageOfOffset` | server/internal/pagination/pagination.go:29-44 | the page number of a page's offset is that page |
| `Pagination.WalkEnumerates` | server/internal/admin/http/dashboard.go:2499-2508 | following Next from page 1 lists every row once, in order, exactly when the page size is below the store cap or one page holds all rows |
| `Pagination.ViewMeans` | server/internal/admin/http/dashboard.go:2499-2508 | a dashboard page is its slice, and offers Next exactly when rows remain and the page size is below the store cap |
| `Pagination.Normalize` | server/internal/pagination/pagination.go:10-27 | which limit and offset a store uses, for all parameters: the default, the cap or the one asked for |
| `Pagination.ListOpens` | server/internal/admin/http/dashboard.go:2405-2447 | a list opens on page 1 with 25 rows, and the caps of the lists |
| `Pagination.OddParameters` | server/internal/pagination/pagination.go:29-44 | parameters that name no page give the first one, uncut |
| `Text.TrimIdempotent` | server/internal/policy/postgres/store.go:190-210 | trimming twice is trimming once, which the passcode checks rely on |
| `Text.TrimTakes` | server/internal/policy/postgres/store.go:190-210 | what trimming takes away is white space, from the two ends only |

## Left out

- Sockets, deadlines, keep-alive, and the connect, subscribe and acknowledgement packets of MQTT: the codecs start from a byte stream.
- Text encodings: strings are sequences of characters, so UTF-8 bytes, unpaired surrogates and Go's replacement of invalid bytes are not modelled.
- JSON numbers are tokens: which token Go prints for a token read as float64 is a parameter, and Gson is taken to print the token it read.
- The device compares object keys as UTF-16 and the server as bytes; the orders are taken to be one order, which they are on the ASCII field names in use.
- SHA-256, HMAC, base64 and secret comparison are parameters with the laws each theorem states; bcrypt, uuids and random secrets are values handed in.
- TemplateRender.NormalizedKeys: the case mapping of a rune outside ASCII and the text of a JSON number or object as an extra are parameters; the mapping turns no other rune into a full stop or an underscore.
- TemplateNames.ChecksumAlwaysMatchesIff: the content and the extras are the same for both requests; the object store's failures are errors of those requests, not part of the claim.
- RateLimiter.WindowBound: real arithmetic in place of float64, and a burst of at least 1.
- RateLimiter.HandlerBound: hosts are addresses and do not contain the separator `|` of the keys.
- CommandProtocol.ExecutedExactlyOnce: deliveries to one device are handled one at a time; nothing in the coordinator excludes two at once.
- CommandCoordinator.Coordinator.HandleIncomingCommand: ends where the gateway is called; the callbacks that only report are left out, and a failing acknowledgement is a parameter of the poll loop.
- CommandStore.Store.Enqueue: target resolution and the publisher's connection are parameters; the status of a row is one of the five that reachable rows have.
- EnrollmentStore.Store.BindDevice: broker provisioning is left out, its errors are only logged; bootstrap extras are opaque.
- EnrollmentStore.Store.Upload: the record itself, and the log and telemetry stores, which change the status in the same way.
- ManagedApps.Apply: download, checksum and progress callbacks; an installer call either takes effect, takes effect and throws, or throws.
- ArtifactRaces.ReuseSafeIff: one run of one tenant, its faults and any references made meanwhile; rows that are inserted or uploaded again, and references that are dropped, during the run are not modelled.
- ArtifactCleanup.Stores.Run: upload routes that choose their own storage keys, and files, certificates and app versions except as references.
- KioskPolicy.KioskSafety: atomic requests only, interleaved ones are covered by InterleavedSafeIff; a violated unique constraint is a parameter, and unreadable restrictions documents are not modelled.
- Pagination: a query parameter is a parsed integer or none; building the links is left out.
- Failing commits and broken connections of Postgres: a transaction that does not commit changes nothing, which is the error case of each operation.
- HTTP routing, sessions, forms, configuration, HTML, the metrics exposition, Android services and plain record keeping (groups, users, roles, certificates, audit).
