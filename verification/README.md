# Verified model of the Mosquitto client library's core

This project models, in Dafny, the parts of Mosquitto that carry its delivery guarantees, and
proves what they promise over every run, every byte stream and every input.

- **Delivery engine** (`Session*.dfy`, `PacketIds.dfy`, `Client.dfy`, `Incoming.dfy`). The QoS 1 and QoS 2 message
  lists, send and receive quota of a client session as state machines (sections 4.3.2, 4.3.3, 4.4
  and 4.9 of MQTT Version 5.0). A run is any interleaving of publishes, losses, reconnects and
  incoming acknowledgements. Handlers that give up their lock half way are several steps, so a
  publish may come in between. `Client` and `Receiver` are the code: classes whose methods are
  proved to take exactly those steps.
- **Wire codec** (`Codec.dfy`, `ItemList.dfy`, `Properties.dfy`, `PacketIn.dfy`, `PacketOut.dfy`,
  `PublishCodec.dfy`, `PublishIn.dfy`, `PublishLaws.dfy`, `PublishStream.dfy`, `Alias.dfy`). Variable
  byte integers, the MQTT 5 property list, PUBLISH, and topic aliases. Each reader is proved to be exactly the inverse
  of its writer.
- **Packet reader and output queue** (`Framing.dfy`, `Cutting.dfy`, `PacketReader.dfy`, `OutQueue.dfy`). The reader
  that can stop at any byte, against a machine that takes one byte at a time, and that machine
  against a declarative notion of a stream of packets; the linked queue with partial writes.
- **Topics** (`Topic.dfy`, `TopicLaws.dfy`, `TopicScan.dfy`, `Acl.dfy`, `AclLaws.dfy`, `Bridge.dfy`,
  `Utf8.dfy`). The character loops for filter matching and for access control, against level by
  level definitions and against containment of topic sets, with the patterns for client id and user name; bridge prefixes; UTF-8 validation.
- **uthash** (`Buckets.dfy`, `HashTable.dfy`). The bucket array with its linked chains, doubling, and
  the list in insertion order, against a map; the invariant is what `HASH_FSCK` checks.

Results that do not hold without a further condition come with the exact condition, or with a run
that shows the condition is needed.

- No PUBLISH after an accepted PUBREC, when CONNACKs change the maximum: the message must sit below the
  maximum in force when its PUBREC is accepted, and below every maximum a later CONNACK sets
  (`SessionQos2.PlacedPubrecIsFinal`). Each half is an if-and-only-if over all continuations
  (`PlaceIsExact`, `ConnackIsExact`). With a conforming broker the first half always holds (`AcceptedPubrecIsFinal`).
- Quota plus live messages within the maximum, when CONNACKs change it: no more late acknowledgements than
  messages waiting below the new maximum (`SessionLate.ConnackConditionIsExact`).
- Packet ids: the generator repeats an id that is in use exactly as `PacketIds.FreshIsApart` says. The reuse that
  does harm to the quota, in an established session with nothing waiting, is a QoS 2 publish under the id of a QoS 1
  message in flight: a PUBREC with an error then gives back quota that no message had taken
  (`SessionReuse.ReuseHarmsExactly`). The rule on accepted PUBRECs needs no fresh ids.
- Further: `Incoming.ReusedPacketIdDeliversTwice` and `PubrelBalances`, `AclLaws.AclCheckIsContainment`,
  `Bridge.RemapRoundTrip`, `Alias.HigherLimitFails`, `PublishLaws.DroppedPacketLosesAlias`,
  `PublishCodec.BufferFitsExactly`, `Cutting.CuttingMattersExactly`, `PacketReader.NewConnectionIsClean`,
  `TopicScan.TakenIsValid`.

Conventions. Packet identifiers, lengths and counters are unbounded numbers, except where the code
depends on the width: the 32 bit property counter wraps, lengths are bounded by 2^28, encoders
take digits modulo 256. Topics are strings without NUL characters, packets are byte sequences. A
broker is conforming if it acknowledges only what was transmitted on the present connection, each
transmission at most once. A send that fails means the connection is down until the next reconnect.

## Model

| member | source | states |
|---|---|---|
| `SessionQos2.AcceptedPubrecIsFinal` | lib/handle_pubrec.c:130-149 | With a conforming broker up to the PUBREC, also under changing maxima, a PUBREC without error finds a QoS 2 message below the maximum in force; then no PUBLISH of that message is ever sent again, over any later run with losses and reconnects and any broker, as long as every CONNACK leaves the message's position below its maximum, and while listed it only awaits PUBCOMP or the resending of PUBREL. |
| `SessionQos2.PlacedPubrecIsFinal` | lib/handle_pubrec.c:130-149 | The same for any broker and any packet ids, before and after, for a message found below the maximum in force. |
| `SessionQos2.FixedMaximumIsFinal` | lib/handle_pubrec.c:130-149 | If the maximum does not change after the PUBREC, the result holds with no further condition on what follows. |
| `SessionQos2.PlaceIsExact` | lib/messages_mosq.c:178-202 | For a message with an accepted PUBREC, in any session between handlers: it is not published again in any continuation whose CONNACKs leave it its place, if and only if its position is below the maximum in force. |
| `SessionQos2.ConnackIsExact` | lib/handle_connack.c:104-112 | For a session waiting for CONNACK and any new maximum: it is not published again in any such continuation, if and only if its position is below the new maximum. |
| `SessionQos2.LostPlaceRepublishes` | lib/messages_mosq.c:178-234 | For every session between handlers and every message at or beyond the maximum in force: a reconnect, a CONNACK with room for everything and one publish send its PUBLISH; with a fresh packet id this is a conforming run. |
| `SessionQos2.LatePubrecIsNotFinal` | lib/handle_pubrec.c:130-149 | A PUBREC that comes late, for a message a CONNACK took out of the window, is accepted, and the message is published again. |
| `SessionSettled.RunSettled` | lib/messages_mosq.c:137-354 | The invariant behind this, for any broker: accepted, below the maximum in force, and no PUBLISH of it on the wire. |
| `SessionWindow.RunBelow` | lib/messages_mosq.c:206-234 | With a conforming broker and changing maxima, while the session is up every message in flight sits below the maximum in force, one more inside an acknowledgement handler. |
| `SessionQos2.RetrySendsInOrder` | lib/messages_mosq.c:293-325 | On a connection that lasts, the retry after CONNACK sends exactly one packet for each message to be resent, in list order. |
| `SessionQos2.PubrelIsResent` | lib/messages_mosq.c:302-321 | Every listed message with an accepted PUBREC gets its PUBREL again after CONNACK. |
| `SessionQos2.LoweredMaximumRepublishes` | lib/messages_mosq.c:178-202 | A run from a new client in which a lowered maximum makes a message with an accepted PUBREC be published again. |
| `SessionSteps.QuotaIsExact` | lib/messages_mosq.c:156-234 | With a fixed maximum and a conforming broker, whenever the session is up and no handler is under way, quota plus live messages equals the maximum, and a message waits only if there is no quota; also after publishing while disconnected. |
| `SessionSteps.NothingIsSentTwice` | lib/messages_mosq.c:206-234 | In those runs nothing is transmitted while its acknowledgement is already outstanding on the connection. |
| `SessionSteps.StepInv` | lib/messages_mosq.c:137-354 | Every step keeps the whole invariant: live messages form a prefix, sent messages lie below the maximum, the quota balance, and each outstanding acknowledgement is about one listed message. |
| `SessionSteps.RunInv` | lib/messages_mosq.c:137-354 | The invariant over every run with a conforming broker. |
| `SessionSteps.ReleaseIsSendNext` | lib/messages_mosq.c:206-234 | With quota for one, or one message waiting, the release loop sends exactly the first waiting message. |
| `SessionSteps.ConnackResetIsIdle` | lib/handle_connack.c:111-112 | With an unchanged maximum the quota reset at CONNACK changes nothing. |
| `SessionBound.QuotaNeverExceedsMaximum` | lib/util_mosq.c:216-237 | If what is unacknowledged on its connection when a CONNACK changes the maximum sits at positions below the new one, quota plus live messages never exceeds the maximum in force, in every established session and every run. |
| `SessionLedger.QuotaStaysWithin` | lib/util_mosq.c:216-237 | The same bound over every run whose CONNACKs meet the counted condition: no more acknowledgements outstanding for messages at or beyond the new maximum than messages waiting below it. |
| `SessionLedger.StepBalances` | lib/handle_pubackcomp.c:63-170 | Every step with a conforming broker keeps the account of quota, live messages and acknowledgements that no message in flight waits for. |
| `SessionLate.ConnackConditionIsExact` | lib/handle_connack.c:104-112 | For a session waiting for CONNACK on a connection that lasts, and for every new maximum: the bound holds in every continuation with a conforming broker if and only if the counted condition holds; with the new maximum 0 only PUBRECs count. |
| `SessionLate.LateAckExceeds` | lib/handle_pubackcomp.c:63-170 | For a session waiting for CONNACK, on a connection that lasts: if every message below a new maximum of at least 1 is live, an outstanding acknowledgement for a message at or beyond it takes quota plus live messages to one above it. |
| `SessionLate.EarlyPublishBreaksBound` | lib/handle_connack.c:104-112 | A run from a new client, with publishes between CONNECT and CONNACK, in which this happens. |
| `SessionBound.ReleaseMoves` | lib/messages_mosq.c:206-234 | The release loop turns quota into live messages one for one unless a send fails, and stops with no quota or nothing waiting. |
| `SessionBound.StepBudget` | lib/handle_pubackcomp.c:63-170 | Every step with a conforming broker keeps the budget invariant, for every maximum a CONNACK may set under that condition. |
| `SessionAccounts.PublishesAreConserved` | lib/messages_mosq.c:237-290 | For any broker and any run: publishes accepted are callbacks plus listed messages, each publish is exactly one of the two, the queue length is the list's length, and messages hold only states of their own QoS. |
| `SessionAccounts.StepAccounts` | lib/messages_mosq.c:137-354 | Every step, with any broker, keeps that account. |
| `SessionAccounts.DropAccounts` | lib/handle_pubackcomp.c:155-166 | Removing a message and reporting it moves one identity from the list to the callbacks. |
| `SessionAwaiting.AnswerPosition` | lib/messages_mosq.c:335-354 | An outstanding acknowledgement is about the first listed message with its packet id, of the right QoS and state, and no other outstanding one has that packet id. |
| `PacketIds.Generator.Generate` | lib/util_mosq.c:124-145 | The 16 bit counter that skips zero gives the g-th identifier as (g - 1) mod 65535 + 1. |
| `PacketIds.SameIdentifier` | lib/util_mosq.c:124-145 | Two generations give the same identifier if and only if they are a multiple of 65535 apart. |
| `PacketIds.FreshIsApart` | lib/util_mosq.c:124-145 | In a session whose listed messages have generated identifiers, the next one is fresh if and only if no listed message is a multiple of 65535 generations older. |
| `PacketIds.GeneratedIdsAreFresh` | lib/util_mosq.c:124-145 | A run whose packet ids come from the generator, with any number of identifiers used elsewhere in between, meets what the results on conforming runs ask of packet ids, as long as no message stays listed for a multiple of 65535 generations. |
| `SessionReuse.ReuseHarmsExactly` | lib/handle_pubrec.c:132-141 | For every established session with quota for one more message and nothing waiting, and a publish under an id in use: handling some acknowledgement of the new message takes quota plus live messages above the maximum, if and only if it has QoS 2 and the first message under the id has QoS 1. |
| `SessionReuse.ReusedIdExceeds` | lib/handle_pubrec.c:132-141 | In that case a PUBREC with an error takes them to one above the maximum, with a broker that conforms. |
| `SessionReuse.ReusedIdBreaksBound` | lib/handle_pubrec.c:132-141 | A run from a new client in which this happens. |
| `Session.Find` | lib/messages_mosq.c:237-290 | The position of the first message with a packet id, or the list's length if there is none. |
| `ClientLibrary.Client.SendPacket` | lib/messages_mosq.c:216-225 | A send succeeds while the connection lasts; a failed one marks it down. |
| `ClientLibrary.Client.IncrementSendQuota` | lib/util_mosq.c:216-221 | Quota goes up by one, not above the maximum. |
| `ClientLibrary.Client.DecrementSendQuota` | lib/util_mosq.c:232-237 | Quota goes down by one, not below zero. |
| `ClientLibrary.Client.ReleaseToInflight` | lib/messages_mosq.c:206-234 | The loop has exactly the effect of the release step, including the state set before a failed send. |
| `ClientLibrary.Client.QueueMessage` | lib/messages_mosq.c:137-153 | Appending and releasing is exactly the publish step. |
| `ClientLibrary.Client.ReconnectReset` | lib/messages_mosq.c:178-202 | The loop is exactly the reset of states and quota by list position. |
| `ClientLibrary.Client.RetryCheck` | lib/messages_mosq.c:293-325 | The loop is exactly the retry step over the whole list. |
| `ClientLibrary.Client.Delete` | lib/messages_mosq.c:237-290 | Removes the first message with the packet id if its QoS is right, and reports it; protocol error or not found otherwise, with nothing changed. |
| `ClientLibrary.Client.OutUpdate` | lib/messages_mosq.c:335-354 | Changes the state of the first message with the packet id if its QoS is right; otherwise nothing. |
| `ClientLibrary.Client.Reconnect` | lib/connect.c:218-307 | A reconnect outside an acknowledgement handler is exactly the reconnect step. |
| `ClientLibrary.Client.HandleConnack` | lib/handle_connack.c:104-117 | CONNACK up to its callback is exactly the connack step. |
| `ClientLibrary.Client.FinishConnack` | lib/handle_connack.c:121-129 | The rest for reason code 0 is exactly the activation step: the retry, also if the connection was lost during on_connect. |
| `ClientLibrary.Client.PubackcompCount` | lib/handle_pubackcomp.c:63-65 | The first locked section is exactly the counting step. |
| `ClientLibrary.Client.PubackcompRemove` | lib/handle_pubackcomp.c:155-166 | Removal and callback are exactly the removal step. |
| `ClientLibrary.Client.PubackcompRelease` | lib/handle_pubackcomp.c:168-170 | The last locked section is exactly the release step. |
| `ClientLibrary.Client.HandlePubrec` | lib/handle_pubrec.c:130-131 | PUBREC without error: state change and PUBREL, also for an unknown packet id. |
| `ClientLibrary.Client.HandlePubrecError` | lib/handle_pubrec.c:132-136 | PUBREC with an error: removal and callback. |
| `ClientLibrary.Client.PubrecErrorRelease` | lib/handle_pubrec.c:137-141 | And quota back and release after the callback. |
| `Incoming.ReceivedIsConserved` | lib/handle_publish.c:207-215 | QoS 2 messages taken in are deliveries plus held messages plus those lost to a PUBCOMP that could not be sent, each exactly one of these, over every run; with all PUBCOMPs sent, none is lost. |
| `Incoming.DeliveredExactlyOnce` | lib/handle_pubrel.c:136-152 | If no packet id is taken in again while it waits, deliveries and losses equal those of a reference receiver, a map from packet id to message, on the packets not refused for lack of quota: each message once, at its first PUBREL, across resets and refusals. |
| `Incoming.ReusedPacketIdDeliversTwice` | lib/handle_publish.c:207-215 | Whenever a waiting packet id is reused, two PUBRELs deliver one message more than the reference receiver: the condition is needed. |
| `Incoming.RefusedOnlyWhenFull` | lib/handle_publish.c:126-133 | Over every run, repeated PUBRELs included, a PUBLISH is refused for lack of quota only when at least the maximum are waiting for PUBREL. |
| `Incoming.PubrelBalances` | lib/send_mosq.c:87-98 | A PUBREL keeps quota plus waiting messages at the maximum if and only if its message is waiting. |
| `Incoming.ReceiveQuotaExact` | lib/util_mosq.c:208-229 | With MQTT 5 and only known PUBRELs the balance is exact and a PUBLISH is refused if and only if the maximum are waiting. |
| `Receiver.Receiver.IncrementReceiveQuota` | lib/util_mosq.c:208-213 | Quota goes up by one, not above the maximum. |
| `Receiver.Receiver.DecrementReceiveQuota` | lib/util_mosq.c:224-229 | Quota goes down by one, not below zero. |
| `Receiver.Receiver.HandlePublish` | lib/handle_publish.c:125-219 | Quota check, acknowledgement and queueing are exactly the incoming publish step. |
| `Receiver.Receiver.Remove` | lib/messages_mosq.c:262-287 | Removes the first held message with the packet id, with the error cases. |
| `Receiver.Receiver.HandlePubrel` | lib/handle_pubrel.c:136-152 | PUBREL is exactly the pubrel step, for a PUBCOMP that can be sent and for one that cannot. |
| `Receiver.Receiver.ReconnectReset` | lib/messages_mosq.c:161-175 | The loop keeps exactly the QoS 2 messages, in order, and takes quota for each. |
| `Codec.VarintReaderIsExact` | lib/packet_datatypes.c:218-250 | The reader gives an integer and a position if and only if the shortest encoding of that integer below 2^28 stands there. |
| `Codec.VarintLength` | libcommon/mqtt_common.c:26-39 | The number of bytes computed from the value is the number written. |
| `Codec.ByteReaderIsExact` | lib/packet_datatypes.c:43-64 | A byte is read if and only if it was written there. |
| `Codec.Uint16ReaderIsExact` | lib/packet_datatypes.c:158-185 | A 16 bit word is read if and only if it was written there. |
| `Codec.Uint32ReaderIsExact` | lib/packet_datatypes.c:188-215 | A 32 bit word is read if and only if it was written there. |
| `Codec.BinaryReaderIsExact` | lib/packet_datatypes.c:93-125 | Data with a length are read if and only if they were written there. |
| `Codec.StringReaderIsExact` | lib/packet_datatypes.c:128-155 | A string is read if and only if it was written there and is valid UTF-8. |
| `ItemList.LoopConsumes` | lib/property_mosq.c:176-220 | For any items: when the loop over the wrapping 32 bit counter ends, what it read are the encodings of the items and the counter went down by their length modulo 2^32. |
| `ItemList.CountedIsExact` | lib/property_mosq.c:176-220 | In a packet below 2^28 bytes a counted list of items is read if and only if it was written there, with exactly the declared number of bytes consumed. |
| `Properties.PropertyListReaderIsExact` | lib/property_mosq.c:176-220 | A property list is read at a position if and only if it is well typed and was written there: same list, same order, exactly the declared bytes, although the counter can wrap. |
| `Properties.ValueReaderIsExact` | lib/property_mosq.c:62-173 | A property value of each type is read if and only if it was written there and is in range. |
| `Properties.LengthIsBytes` | libcommon/property_common.c:83-125 | The announced length of a property is the number of bytes it is written with. |
| `Properties.GetLengthAll` | libcommon/property_common.c:128-139 | The announced length of a list is the number of bytes written, modulo 2^32. |
| `Properties.CheckValue` | libcommon/property_common.c:678-705 | The value checks, as conditions on type and value. |
| `Properties.FindDuplicate` | libcommon/property_common.c:713-722 | Finds a later property with the same identifier if there is one. |
| `Properties.CheckAll` | libcommon/property_common.c:670-728 | Returns the first fault in list order: value, command, then repetition. |
| `Properties.CheckedMeans` | libcommon/property_common.c:670-728 | A list passes if and only if every property is acceptable for the command and only user properties are repeated. |
| `PacketIn.PacketIn.GetByte` | lib/packet_datatypes.c:43-54 | Reads the byte at the position, or fails at the end. |
| `PacketIn.PacketIn.GetUint16` | lib/packet_datatypes.c:158-173 | Reads the word at the position, or fails at the end. |
| `PacketIn.PacketIn.GetUint32` | lib/packet_datatypes.c:188-203 | Reads the word at the position, or fails at the end. |
| `PacketIn.PacketIn.GetVarint` | lib/packet_datatypes.c:218-250 | The loop reads exactly the integer of the recursive reader, rejects overlong and unfinished ones, and counts its bytes. |
| `PacketIn.PacketIn.GetBinary` | lib/packet_datatypes.c:93-125 | Reads the data behind their length, or fails. |
| `PacketIn.PacketIn.GetString` | lib/packet_datatypes.c:128-147 | Reads a string and validates it. |
| `PacketIn.PacketIn.GetValue` | lib/property_mosq.c:62-173 | Reads a value of each type and gives the number of bytes taken off the counter. |
| `PacketIn.PacketIn.GetProperty` | lib/property_mosq.c:35-173 | Reads one property; the counter goes down, wrapping, by exactly the bytes read. |
| `PacketIn.PacketIn.GetPropertyList` | lib/property_mosq.c:176-210 | The loop ends on every packet and gives exactly the list of the recursive reader, or its error. |
| `PacketIn.PacketIn.GetProperties` | lib/property_mosq.c:176-220 | The list if it also passes the checks for the command, else the first fault. |
| `PacketOut.PacketOut.WriteByte` | lib/packet_datatypes.c:57-64 | Appends a byte within the buffer. |
| `PacketOut.PacketOut.WriteBytes` | lib/packet_datatypes.c:81-90 | Appends bytes within the buffer. |
| `PacketOut.PacketOut.WriteUint16` | lib/packet_datatypes.c:176-185 | Appends a word, high byte first. |
| `PacketOut.PacketOut.WriteUint32` | lib/packet_datatypes.c:206-215 | Appends a word, high byte first. |
| `PacketOut.PacketOut.WriteString` | lib/packet_datatypes.c:150-155 | Appends a string with its length. |
| `PacketOut.PacketOut.WriteVarint` | lib/packet_datatypes.c:253-273 | Appends the encoding of any 32 bit word, and reports an error exactly from 2^28 on. |
| `PacketOut.PacketOut.WriteProperty` | lib/property_mosq.c:223-270 | Appends exactly the encoding of a well typed property. |
| `PacketOut.PacketOut.WriteProperties` | lib/property_mosq.c:273-295 | Appends exactly the encodings of a list, in order. |
| `PacketOut.Alloc` | lib/packet_mosq.c:49-96 | Writes the fixed header and leaves exactly the remaining length free; fails exactly from 2^28 on. |
| `PublishCodec.RealPublish` | lib/send_publish.c:210-343 | The packet is the encoding of the message with the added properties and the alias decision, fills the allocated buffer exactly with every write in bounds, and is dropped exactly when oversize or too long. |
| `PublishCodec.PacketLength` | lib/send_publish.c:243-292 | The length reserved and the 32 bit property length, for properties of any size: a property length that takes more than four bytes is not counted. |
| `PublishCodec.WriteBody` | lib/send_publish.c:307-340 | The writes behind the fixed header, for properties of any size, in a buffer with room for them: topic or alias, packet id, the property length and what is left of the properties, payload. |
| `PublishCodec.BufferFitsExactly` | lib/send_publish.c:284-331 | What those writes produce is as long as what was reserved, and is the encoding of the message, if and only if the protocol is not MQTT 5 or the properties are below 2^28 bytes; otherwise it is longer. |
| `PublishIn.ProcessPublish` | lib/handle_publish.c:38-86 | The loop resolves the alias, updates the table and rejects properties exactly as the recursive definition does. |
| `PublishIn.HandlePublish` | lib/handle_publish.c:110-187 | Decoding gives exactly the message or the first error, and the alias table. |
| `PublishLaws.FlagsAreExact` | lib/handle_publish.c:110-114 | QoS, dup and retain are read back from the command byte. |
| `PublishLaws.FieldsAreExact` | lib/handle_publish.c:116-152 | Topic, packet id and properties of an encoded body are read back, with the payload behind them, or refused, exactly as the receiver's conditions say. |
| `PublishLaws.PublishRoundTrip` | lib/send_publish.c:210-343 | For every message within the format's limits, from a sender whose aliases agree: the receiver gets exactly the message if and only if it meets the receiver's checks, stated on the message sent, and an alias set by the application is the only one and within the receiver's limit; the aliases still agree. |
| `PublishLaws.OwnAliasTrip` | lib/handle_publish.c:58-77 | A message with an alias set by the application arrives, and the alias is entered for its topic, if and only if it is deliverable, no other alias was added and it is within the receiver's limit. |
| `PublishLaws.FramedIsRead` | lib/packet_mosq.c:49-96 | The bytes sent are to the receiver's reader exactly one packet with that command and body. |
| `PublishLaws.ConnectionIsFaithful` | lib/send_publish.c:210-343 | Over a whole connection, from any stale alias table, every message sent arrives as it was, in order, if no message that introduces an alias is dropped for its size; with aliases set by the application where the sender gives out none. |
| `PublishLaws.DroppedPacketLosesAlias` | lib/send_publish.c:229-300 | If a message that introduces an alias is refused for its size, the next message to the topic arrives as it was if and only if the receiver's table happens to hold that alias for the topic already. |
| `PublishStream.StreamIsRead` | lib/packet_mosq.c:471-642 | The bytes of all packets of a connection, one after the other, are divided by the packet reader into exactly those packets. |
| `PublishStream.StreamIsFaithful` | lib/handle_publish.c:110-187 | Those bytes, divided and decoded in order from any stale alias table, are exactly the messages sent, each once, in order, with every field. |
| `Alias.Aliases.AddL2r` | lib/alias_mosq.c:30-55 | Appends the next alias while there is room, else 0 and no change. |
| `Alias.Aliases.AddR2l` | lib/alias_mosq.c:58-91 | Overwrites the first entry with the alias or appends one. |
| `Alias.Aliases.FindByAlias` | lib/alias_mosq.c:94-119 | The topic of the first entry with the alias. |
| `Alias.Aliases.FindByTopic` | lib/alias_mosq.c:122-143 | The alias of the first entry with the topic. |
| `Alias.Aliases.Outgoing` | lib/send_publish.c:229-241 | Alias alone, topic with a new alias, or topic alone. |
| `Alias.PutFound` | lib/alias_mosq.c:58-91 | After an update a lookup gives the new topic for its alias and what it gave before for every other. |
| `Alias.AliasesAgree` | lib/handle_publish.c:58-77 | For every run of topics and every stale receiver table, the topics resolved are those sent, if the sender's limit is not above the receiver's. |
| `Alias.HigherLimitFails` | lib/handle_publish.c:61-63 | With a higher sender limit, every run of one more different topics than the receiver allows has one that is refused. |
| `Framing.FramingIsExact` | lib/packet_mosq.c:471-642 | The byte machine rests with a sequence of packets if and only if the stream is those packets one after the other, each a nonzero command byte, a length of one to four bytes and that many bytes. |
| `Framing.ParseDivides` | lib/packet_mosq.c:471-642 | At any point of any stream that does not get it stuck, the machine has found the complete packets and knows the incomplete one. |
| `Framing.FeedMore` | lib/packet_mosq.c:471-642 | Feeding in pieces is feeding the whole. |
| `Framing.WrittenIsFrame` | lib/packet_mosq.c:49-96 | What the packet writer produces is a packet to the machine. |
| `Cutting.CuttingIsImmaterial` | lib/packet_mosq.c:471-642 | However a stream without a zero command byte is cut into calls of the reader, it is divided as a whole. |
| `Cutting.ZeroCommandDivides` | lib/packet_mosq.c:471-520 | Wherever a command is due, two zero bytes are a packet if they arrive together and none if the reader is called in between: it takes a command of zero for none. |
| `Cutting.CuttingMattersExactly` | lib/packet_mosq.c:471-642 | The packets handed over by the calls do not depend on the cutting if and only if no command byte is zero. |
| `PacketReader.Reader.ReadHeader` | lib/packet_mosq.c:363-394 | Fills the buffer with what one read gives, with the statuses for would-block, interruption, end and failure. |
| `PacketReader.Reader.ReadDigit` | lib/packet_mosq.c:528-541 | One of the first four length bytes is taken exactly as the machine takes it. |
| `PacketReader.Reader.ReadBuffered` | lib/packet_mosq.c:526-541 | The same, or a fifth length byte is rejected where the machine breaks off. |
| `PacketReader.Reader.ReadLength` | lib/packet_mosq.c:518-548 | The loop over length bytes follows the machine and can stop at any byte. |
| `PacketReader.Reader.StartPayload` | lib/packet_mosq.c:558-585 | Room for the payload, with what the buffer holds of it moved over. |
| `PacketReader.Reader.ReadPayload` | lib/packet_mosq.c:587-622 | The rest of the payload, in any number of reads. |
| `PacketReader.Reader.Finish` | lib/packet_mosq.c:624-642 | A complete packet is handed over once and the reader is ready for the next. |
| `PacketReader.Reader.ReadSingle` | lib/packet_mosq.c:471-642 | Keeps the fields equal to the state of the machine after the bytes of this call, whatever the network does, also behind a zero command byte. |
| `PacketReader.Reader.Read` | lib/packet_mosq.c:645-693 | For every buffer size and every way the bytes arrive, it ends, and it is exactly a call of the machine on the bytes it takes, zero command bytes included; on success these are all that came in. Without a zero command byte the packets handed over and the packet begun are those of all bytes received, and a malformed length is reported exactly there, after the packets before it. |
| `PacketReader.Reader.Reconnect` | lib/connect.c:257-257 | A new connection starts with the bytes left in the buffer in front. |
| `PacketReader.NewConnectionIsClean` | lib/packet_mosq.c:99-113 | The packets handed over are those of the new connection, for every stream of whole packets, if and only if nothing was left in the buffer. |
| `OutQueue.AnyInterleaving` | lib/packet_mosq.c:177-360 | Under every interleaving of queueing, partial and blocked writes, callbacks and unlinking from an empty queue: the bytes sent are a prefix of the queued packets one after the other and do not pass the first DISCONNECT, and the callbacks, with the one the writer is about to make, are those of exactly the QoS 0 PUBLISH packets sent whole, once each, in order. |
| `OutQueue.SentIsOrdered` | lib/packet_mosq.c:272-360 | In every history in order the bytes sent are a prefix of the queued packets one after the other and do not pass the first DISCONNECT. |
| `OutQueue.CallbackIsOnce` | lib/packet_mosq.c:332-340 | And the callbacks made or due are those of exactly the QoS 0 PUBLISH packets all bytes of which are sent, once each, in order. |
| `OutQueue.StepInOrder` | lib/packet_mosq.c:177-360 | Every step keeps a history in order. |
| `OutQueue.QueuedInOrder` | lib/packet_mosq.c:146-174 | Queueing at any time keeps that order. |
| `OutQueue.WroteInOrder` | lib/packet_mosq.c:303-308 | A partial write of any size keeps that order. |
| `OutQueue.CalledInOrder` | lib/packet_mosq.c:332-340 | The callback for a complete packet, or the shutdown after a DISCONNECT, keeps that order. |
| `OutQueue.UnlinkedInOrder` | lib/packet_mosq.c:341-344 | Taking a complete packet off after its callback keeps that order. |
| `OutQueue.Queue.LinkLast` | lib/packet_mosq.c:161-173 | The packet is linked last; links, last, count and bytes describe the list. |
| `OutQueue.Queue.Append` | lib/packet_mosq.c:177-230 | Queueing is exactly the queue step. |
| `OutQueue.Queue.GetNextOut` | lib/packet_mosq.c:249-269 | The first packet is unlinked; links, last, count and bytes describe the rest. |
| `OutQueue.Queue.WriteSome` | lib/packet_mosq.c:303-330 | One write sends the next bytes of the first packet. |
| `OutQueue.Queue.Complete` | lib/packet_mosq.c:332-344 | A complete packet is exactly the callback step and the unlinking step: it leaves the queue with its callback; a DISCONNECT stays and shuts the socket. |
| `OutQueue.Queue.Write` | lib/packet_mosq.c:272-360 | Keeps the history in order, sends nothing after a shutdown, leaves no complete packet at the head of an open queue, has made the callbacks of exactly the QoS 0 PUBLISH packets sent whole, and if the socket does not refuse, ends with an empty queue or a shut socket. |
| `OutQueue.Queue.CleanupAll` | lib/packet_mosq.c:116-135 | Empties the list and all its counters. |
| `TopicLaws.ScanDecidesMatching` | libcommon/topic_common.c:169-337 | For every accepted filter and topic the scan succeeds and equals the level by level definition with +, # and its parent level, the $ rule, and %c and %u patterns. |
| `TopicLaws.ScanIsMatches` | libcommon/topic_common.c:169-337 | The same for every filter with well placed wildcards, of any length. |
| `TopicLaws.ScanIsRest` | libcommon/topic_common.c:192-337 | From every pair of positions the scan decides what is left to match. |
| `TopicScan.PubTopicCheck` | libcommon/topic_common.c:40-66 | Accepts exactly the valid topic names. |
| `TopicScan.PubTopicCheck2` | libcommon/topic_common.c:69-90 | Accepts exactly the valid topic names. |
| `TopicScan.SubTopicCheck` | libcommon/topic_common.c:100-134 | Accepts exactly the valid filters. |
| `TopicScan.SubTopicCheck2` | libcommon/topic_common.c:137-166 | Accepts exactly the strings, also with NUL characters, whose wildcards fill their level, where a NUL in front of one counts as the beginning. |
| `TopicScan.TakenIsValid` | libcommon/topic_common.c:137-166 | The valid filters are exactly those it accepts without a wildcard directly behind a NUL. |
| `TopicScan.MatchId` | libcommon/topic_common.c:203-225 | Compares a client id or user name with a topic level. |
| `TopicScan.TopicMatchesSub` | libcommon/topic_common.c:169-337 | The loop gives the return code and result of the scan on all inputs, valid or not. |
| `TopicScan.TopicMatchesSub2` | libcommon/topic_common.c:539-664 | The loop with lengths gives the same return code and result on all inputs, valid or not. |
| `Acl.SubMatchesAcl` | libcommon/topic_common.c:340-523 | The loop gives the return code and result of its scan on all inputs, with and without the patterns for client id and user name. |
| `Acl.ScanDecidesCovering` | libcommon/topic_common.c:340-511 | For every pair of accepted filters and every client id and user name the scan succeeds and equals a level by level covering. |
| `AclLaws.CoveringIsSound` | libcommon/topic_common.c:340-511 | If levels cover, everything that matches the subscription matches the access control filter. |
| `AclLaws.WitnessSeparates` | libcommon/topic_common.c:340-511 | If they do not cover, the constructed levels match the subscription and not the access control filter. |
| `AclLaws.AclCheckIsContainment` | libcommon/topic_common.c:340-511 | For every pair of accepted filters and every client id and user name the check is true if and only if every topic that matches the subscription matches the access control filter and the pair is not one of three exceptions. |
| `AclLaws.MissedAreContained` | libcommon/topic_common.c:340-511 | The three exceptions are contained pairs, and the check refuses each of them. |
| `Bridge.RemapTopicIn` | src/bridge_topic.c:258-312 | The loop is the first matching incoming entry's mapping. |
| `Bridge.RemapTopicOut` | lib/send_publish.c:136-183 | The loop is the first matching outgoing entry's mapping. |
| `Bridge.PrefixSwap` | src/bridge_topic.c:28-55 | Matching is preserved when one prefix without wildcards is swapped for another. |
| `Bridge.RemapRoundTrip` | src/bridge_topic.c:58-312 | For an entry in both directions with both prefixes, a matching topic comes back unchanged after in and out if and only if it begins with the remote prefix. |
| `Bridge.ParentDoesNotRoundTrip` | src/bridge_topic.c:275-306 | The parent level of prefix/# matches and does not come back. |
| `Utf8.ReadLead` | libcommon/utf8_common.c:40-69 | The length and bits announced by a first byte. |
| `Utf8.ReadContinuation` | libcommon/utf8_common.c:71-82 | The code point behind the continuation bytes, or rejection. |
| `Utf8.CheckCodepoint` | libcommon/utf8_common.c:84-112 | The checks on a code point and its length. |
| `Utf8.Validate` | libcommon/utf8_common.c:25-115 | The loop accepts what the recursive scan accepts, up to 65536 bytes. |
| `Utf8.ValidatorIsExact` | libcommon/utf8_common.c:25-115 | The scan accepts exactly the concatenations of shortest forms of code points up to 0x10FFFF that are not NUL, control characters, surrogates or non-characters. |
| `Buckets.LinkFront` | deps/uthash.h:794-813 | The pointers put a handle in front of a chain, forwards and back. |
| `Buckets.LinkOut` | deps/uthash.h:816-829 | The pointers take a handle out of a chain, forwards and back. |
| `Buckets.MaskIsRemainder` | deps/uthash.h:430-433 | The bitwise and with a power of two less one is the remainder. |
| `Buckets.Buckets.ToBucket` | deps/uthash.h:430-433 | The bucket found by the mask is the remainder by the number of buckets. |
| `Buckets.Buckets.Find` | deps/uthash.h:772-791 | Finds the handle with the key and hash value in its bucket, or there is none. |
| `Buckets.Buckets.Push` | deps/uthash.h:794-804 | The handle is first in its bucket, the count is right and all other buckets are as they were. |
| `Buckets.Buckets.Raise` | deps/uthash.h:883-888 | Says whether the last element is beyond the ideal length and raises the bucket's limit exactly when its count is beyond that multiple. |
| `Buckets.Buckets.Remove` | deps/uthash.h:816-829 | The handle is out of its bucket, the count is right and all other buckets are as they were. |
| `HashTable.AppendList` | deps/uthash.h:278-284 | The insertion order gains a last element. |
| `HashTable.CutList` | deps/uthash.h:461-471 | The insertion order loses an element, with head and tail right. |
| `HashTable.Move` | deps/uthash.h:879-896 | During doubling one element goes from its old chain to its new bucket, and the rest of the walk is untouched. |
| `HashTable.Double` | deps/uthash.h:866-901 | Twice the buckets hold exactly the same elements, each in its bucket, with right counts and links; the ideal chain length is the rounded up quotient, and the nonideal items are exactly those beyond it. |
| `HashTable.HashTable.Find` | deps/uthash.h:153-173 | Returns exactly what the map has for the key, for any hash function. |
| `HashTable.HashTable.MakeTable` | deps/uthash.h:212-242 | A new table has 32 empty buckets and may expand. |
| `HashTable.HashTable.Judge` | deps/uthash.h:902-907 | Ineffective expansions in a row are counted, and expansion is switched off exactly at the second. |
| `HashTable.HashTable.ExpandBuckets` | deps/uthash.h:860-910 | Expansion keeps the elements and the power of two, counts exactly the elements behind the ideal chain position, and switches itself off as stated. |
| `HashTable.HashTable.Grow` | deps/uthash.h:804-806 | The table doubles if and only if the bucket has reached its limit and expansion is not switched off. |
| `HashTable.HashTable.AddToTable` | deps/uthash.h:337-345 | The element is in its bucket, before and after an expansion. |
| `HashTable.HashTable.Add` | deps/uthash.h:396-415 | The map gains the key, the order gains a last element, and all the checked conditions hold. |
| `HashTable.HashTable.Delete` | deps/uthash.h:450-477 | The map loses the key, the order of the others stays, and all the checked conditions hold; with the last element the table goes. |

## Left out

- Sockets, TLS, SOCKS, WebSocket framing and the select loop: a read or write is an arbitrary byte count, would-block or failure.
- Allocation failure and freeing: allocation succeeds.
- Real threads: each locked section is one atomic step, and runs interleave them.
- The broker's database, subscription tree, retained messages, plugins, persistence and configuration.
- Runs in which a packet id in use is given out again are outside the results on conforming runs; `SessionReuse.ReuseHarmsExactly` says which reuse does harm to the quota when the next acknowledgement is handled, and nothing is stated about what comes later.
- `ClientLibrary.Client.SendPacket`: a PUBLISH dropped for its size while being released is not modelled apart; a failed send is taken as a lost connection, for this cause too.
- `ClientLibrary.Client.Reconnect`: a reconnect from inside an acknowledgement callback is not modelled.
- `ClientLibrary.Client.FinishConnack`: a reconnect from inside on_connect is not modelled.
- `SessionLate.ConnackConditionIsExact`: the if-and-only-if is for a connection that takes more than twice as many sends as there are messages listed; on one that fails earlier the session goes down instead.
- Changing the send or receive maximum by option in mid-session.
- The order of callbacks within one locked section, and what a callback does other than publish.
- Keep-alive times, logging and metrics.
- HASH_BLOOM, HASH_SORT, HASH_SELECT, ordered insertion and the hash functions of uthash: the hash is any function of the key.
- Building, copying and freeing property lists by the application (the add, copy and free functions of libcommon/property_common.c): the model starts from a list as it is handed to the encoder.
- `PacketReader.Reader.Read`: nothing is stated once a call ends inside the payload of a packet with command 0 and the reader is called again, because the next command byte is then read past the payload; and the return to the caller while a connect is pending is not modelled.
- `Cutting.CuttingMattersExactly`: what becomes of the payload of a packet with command 0 when the reader is called again is left open, as in `PacketReader.Reader.Read`.
- `PublishCodec.RealPublish`: asks for properties below 2^28 bytes, which is exactly when the code reserves what it writes (`PublishCodec.BufferFitsExactly`).
- `HashTable.HashTable.Find`: unsigned counters do not wrap.
