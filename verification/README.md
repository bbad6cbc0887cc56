# A verified model of the azure-umqtt-c client

This project models the MQTT 3.1.1 client library azure-umqtt-c in Dafny and proves properties of
the model. It covers the wire codec (`src/mqtt_codec.c`) and the event-driven client
(`src/mqtt_client.c`), and joins the two end to end.

To verify it, use `dafny verify dfyconfig.toml`.

## How it is organised

| file | contents |
|---|---|
| `Basics.dfy` | bytes, bit operations, 16-bit integers and strings on the wire, packet types |
| `RemainingLength.dfy` | the Remaining Length field: value, encoding loop, shortest form |
| `Buffers.dfy`, `Encoder.dfy` | the growing buffer and the encoders that write into it in place |
| `Wire.dfy` | what the encoders produce, as values |
| `Decoder.dfy`, `Codec.dfy` | the receive state machine on values, and the class with the source's fields that follows it |
| `StreamParser.dfy` | a whole-stream reference parser and the refinement proof |
| `Framing.dfy` | lists of packets of every kind, sent back to back |
| `Reader.dfy`, `PublishRoundTrip.dfy`, `EndToEnd.dfy` | reading a PUBLISH, and the way of a message from one side's encoder to the other's callback |
| `BodyRoundTrips.dfy` | reference parsers for SUBSCRIBE, UNSUBSCRIBE and CONNECT bodies |
| `Trace.dfy`, `ClientSpec.dfy`, `Client.dfy` | the observer's log, the client on values, and the class with the source's fields that follows it |
| `Effects.dfy` | what each event does to a client, completely: the outputs, the bytes sent and the fields |
| `QuietSteps.dfy`, `KeepAliveRuns.dfy`, `ConnectionOrder.dfy`, `EventLaws.dfy` | properties of whole runs of the client |
| `Handshake.dfy`, `HandshakeRuns.dfy` | two clients on one channel: what one step does, and whole runs |

The two stateful components are classes with the fields of the source, updated in place (`Codec.Codec`
and `Client.MqttClient`); the encoders write through a position into a `Buffer` object. Each method is proved to do what
a function on values says, and the properties are proved about those functions. The flag operations
`|` and `&` are written out on integers, and an assignment to a C `int` in the length decoder is
proved to fit 32 bits. Clock values are below 2^64 and their differences wrap around as in the source.

What the libraries behind the client decide arrives as a parameter: whether `xio_send` accepts,
what the tick counter reads (or that it cannot be read, in which case it is taken to leave its result
alone), whether `xio_open` succeeds, and in which round of `xio_dowork` the closed callback runs. Every
theorem about runs holds for all such answers unless it names a condition on them. `mqtt_client_dowork`
runs any list of I/O callbacks before the keep-alive check, because `xio_dowork` may make any of them.

## What the code does and its documentation does not say

- The comments in the codec promise packets of up to 268,435,455 bytes. The encoder builds them; the
  decoder refuses every four-byte length field, so 2,097,151 is the largest body it takes
  (`Framing.DecodesIffFits`).
- A PUBLISH whose flags are non-zero with QoS bits 00 is read as QoS 2, so a retained or duplicate QoS 0
  message does not survive (`PublishRoundTrip.FlaggedQos0Misread`). `PublishRoundTrip.PublishIsFaithfulIff` and
  `EndToEnd.ClientDeliversIff` give the exact condition.
- Between two clients such a message can cost four deliveries instead of one, and its publisher is told of a
  PUBREC and a PUBCOMP for a packet id it never used (`HandshakeRuns.RetainedMessageRun`). The handshakes
  end, and conserve what is read, for all messages; `HandshakeRuns.ConservedAsPublishedIff`,
  `HandshakeRuns.BoundedAsPublishedIff` and `HandshakeRuns.DeliveredAsPublishedIff` say exactly for which
  messages the exchanges, the number of deliveries and the messages handed over are also those published.
- A connection that is lost in the middle of a packet leaves the codec there, because only a failed chunk
  resets it. The next connection's CONNACK can be taken for the rest of that packet
  (`EndToEnd.HalfPacketOutlivesConnection`); `Decoder.DecodesAsNewIff` gives the exact condition.
- A CONNECT field that is present but empty gets two bytes of room that are never written
  (`BodyRoundTrips.EmptyUsernameLeavesSlack`). `BodyRoundTrips.ConnectExactIff` gives the exact condition.
- A PINGREQ that is never answered need not time out, and a second one can go out while it is unanswered,
  in two cases: the reading that stamps the ping is later than the one that stamps its send by more than
  a margin, which is zero for an interval of one or two seconds; or that reading fails, which
  src/mqtt_client.c:1473 ignores. In both, every check can send another PINGREQ, which overwrites a late
  stamp and leaves a failed one unset, for as long as the clock runs, and MQTT_CLIENT_NO_PING_RESPONSE never comes
  (`KeepAliveRuns.TimeoutPutOff`). `KeepAliveRuns.NoSecondPingIff` and `KeepAliveRuns.TimeoutInTimeIff`
  give the exact condition. Without any stamp no ping times out (`KeepAliveRuns.UnreadStampsNeverTimeOut`).
- MAX_SEND_SIZE is 4,294,967,167 although its comment says 268,435,455, and it never decides whether a
  received length is accepted (`Codec.Codec.StoredLength`).
- Requirement SRS_MQTT_CODEC_07_005 wants an empty payload refused; the code accepts it, and so does the model.
- A packet without a body other than PINGRESP swallows the next byte and fails at the one after
  (`StreamParser.FeedNoBody`).

## Model

| member | source | states |
|---|---|---|
| RemainingLength.EncodeLoop | src/mqtt_codec.c:344-354 | for a body below 2^28 the loop stays inside its four bytes and leaves exactly the encoded length there |
| RemainingLength.EncodeCorrect | src/mqtt_codec.c:344-354 | continuation bits on all bytes but the last, and the base-128 value is the number encoded |
| RemainingLength.ValueOfThree | src/mqtt_codec.c:529-546 | the weights of the groups: 1, 128 and 16,384, least significant first |
| RemainingLength.EncodeSize | src/mqtt_codec.c:344-354 | k bytes suffice exactly for numbers below 128^k |
| RemainingLength.EncodeShortest | src/mqtt_codec.c:344-354 | no well-formed field of the same value is shorter; a field re-encodes to itself if and only if it has no superfluous zero group |
| Encoder.ConstructFixedHeader | src/mqtt_codec.c:336-377 | type and flags in one byte and the length field are put in front of the unchanged body |
| Encoder.ConstructPublishVariableHeader | src/mqtt_codec.c:226-280 | fails exactly for a topic over 65,535 bytes; otherwise appends topic and, for QoS 1 and 2, packet id, filling all the room it made |
| Encoder.PublishHeaderFlags | src/mqtt_codec.c:774-787 | the or-ed flag nibble is dup 8, QoS 2 or 4, retain 1 |
| Encoder.Publish | src/mqtt_codec.c:754-869 | NULL exactly for a topic over 65,535 bytes or a payload over MAX_SEND_SIZE; otherwise the whole PUBLISH packet |
| Encoder.ConstructPublishReply | src/mqtt_codec.c:305-334 | the four bytes of PUBACK, PUBREC, PUBREL, PUBCOMP |
| Encoder.AddListItemsToSubscribePacket | src/mqtt_codec.c:163-194 | earlier bytes are kept and every topic and QoS appended in order; fails exactly when some topic is too long |
| Encoder.AddListItemsToUnsubscribePacket | src/mqtt_codec.c:132-161 | the same for UNSUBSCRIBE |
| Encoder.ConstructSubscribeTypeVariableHeader | src/mqtt_codec.c:282-303 | the packet id starts the body |
| Encoder.Subscribe | src/mqtt_codec.c:934-997 | NULL exactly for an empty list or an oversized topic; otherwise the whole packet |
| Encoder.Unsubscribe | src/mqtt_codec.c:999-1061 | the same for UNSUBSCRIBE |
| Encoder.ConstructConnectVariableHeader | src/mqtt_codec.c:196-224 | protocol name, level 4, zero flags, keep-alive, in exactly ten bytes |
| Encoder.ConstructConnPayload | src/mqtt_codec.c:379-513 | succeeds exactly for connectable options; all writes stay inside the room made, the flag byte is right, and only the slack stays unwritten |
| Encoder.Connect | src/mqtt_codec.c:659-721 | the whole CONNECT packet, or NULL exactly when the options are not connectable |
| BodyRoundTrips.SubscribeRoundTrip | src/mqtt_codec.c:163-194 | the payload has length sum(len + 3) and a reference parser recovers the list in order, each QoS by its number 0, 1, 2 or 128 |
| BodyRoundTrips.SubscribeExample | src/mqtt_codec.c:163-194 | a QoS 1 subscription byte by byte |
| BodyRoundTrips.SubscribeInjective | src/mqtt_codec.c:934-997 | equal SUBSCRIBE bodies mean equal packet id and list |
| BodyRoundTrips.UnsubscribeRoundTrip | src/mqtt_codec.c:132-161 | the payload has length sum(len + 2) and a reference parser recovers the list in order |
| BodyRoundTrips.UnsubscribeInjective | src/mqtt_codec.c:999-1061 | equal UNSUBSCRIBE bodies mean equal packet id and list |
| BodyRoundTrips.ConnectRoundTrip | src/mqtt_codec.c:379-513 | a flag-driven parser recovers client id, will with its QoS by number, credentials, clean session and keep-alive, and leaves over exactly the unwritten bytes |
| BodyRoundTrips.ConnectRefusedIff | src/mqtt_codec.c:388-417 | CONNECT is refused exactly for a part over 65,535 bytes, a password without a user name, or a will topic or message without the other |
| BodyRoundTrips.ConnectExactIff | src/mqtt_codec.c:388-417 | the packet is exactly sized if and only if no optional field is present but empty; the body never exceeds 327,695 bytes |
| BodyRoundTrips.EmptyUsernameLeavesSlack | src/mqtt_codec.c:394-398 | options that are accepted and leave two bytes unwritten |
| Decoder.StepKeepsInv | src/mqtt_codec.c:1084-1196 | one byte keeps: at most four stored length bytes, continuation bits on them, a body under assembly with room left |
| Decoder.ReceiveKeepsInv | src/mqtt_codec.c:1063-1199 | every call keeps that invariant, also after errors without a reset |
| Decoder.FeedAppend | src/mqtt_codec.c:1084-1196 | feeding a concatenation is feeding its parts, up to the first failure |
| Decoder.ChunkingIndependent | src/mqtt_codec.c:1063-1199 | any cut into non-empty chunks gives the packets, outcome, failing byte and state of the whole |
| Decoder.TwoPartitions | src/mqtt_codec.c:1063-1199 | two partitions of one byte string cannot be told apart |
| Decoder.ResetRecovers | src/mqtt_client.c:510-525 | what is reported for the chunks after a malformed one is what a fresh codec reports for them |
| Decoder.DecodesAsNewIff | src/mqtt_codec.c:1084-1196 | a codec takes every byte stream as a new codec does if and only if it is between two packets |
| Basics.TypeNumbers | inc/azure_umqtt_c/mqttconst.h:40-61 | the packet type of a first byte by its number |
| StreamParser.FirstBytesTaken | src/mqtt_codec.c:1093-1131 | the first bytes a new decoder takes, by their numbers |
| Codec.Codec.constructor | src/mqtt_codec.c:632-645 | a new codec is in the fresh state |
| Codec.Codec.Reset | src/mqtt_codec.c:612-630 | from any valid state, errors included, back to the fresh state |
| Codec.Codec.StoredLength | src/mqtt_codec.c:529-546 | the loop reads stored bytes only, totals and multipliers fit a 32-bit int, it fails exactly at four bytes, and MAX_SEND_SIZE never decides |
| Codec.Codec.PrepareHeaderDataInfo | src/mqtt_codec.c:515-595 | the fields change as the specification of a length byte says |
| Codec.Codec.CompletePacketData | src/mqtt_codec.c:597-610 | one packet is reported with the collected body, and the codec is fresh, whatever the stale write position |
| Codec.Codec.ReceiveLengthByte | src/mqtt_codec.c:1134-1156 | the branch for length bytes, PINGRESP completed only by an immediate zero |
| Codec.Codec.ReceiveBodyByte | src/mqtt_codec.c:1158-1189 | the branch that fills the packet buffer |
| Codec.Codec.ReceiveByte | src/mqtt_codec.c:1086-1195 | one turn of the receive loop |
| Codec.Codec.BytesReceived | src/mqtt_codec.c:1063-1199 | a call uses, reports and leaves what the specification says; the write position left over from earlier packets has no influence |
| StreamParser.FeedLength | src/mqtt_codec.c:515-595 | a complete field of at most three bytes starts a body of exactly its value |
| StreamParser.FeedBody | src/mqtt_codec.c:1160-1189 | while a body is collected the filled prefix is the bytes received; the last byte reports it |
| StreamParser.FeedNoBody | src/mqtt_codec.c:1160-1195 | a zero-length packet swallows one byte and fails on the next; a short body waits |
| StreamParser.FeedFrame | src/mqtt_codec.c:1084-1196 | one decodable frame is one packet and leaves the decoder fresh |
| StreamParser.LongFrameRefused | src/mqtt_codec.c:541-552 | a frame with four length bytes fails at the fourth, reporting nothing |
| StreamParser.DecoderRefinesParser | src/mqtt_codec.c:1063-1199 | on every byte stream the decoder reports exactly the frames of a parser that goes by the numbers of the standard, fails exactly at its malformed byte, and its state depends on the bytes left over only |
| StreamParser.ParseConserves | src/mqtt_codec.c:1084-1196 | every stream is the wire bytes of its frames followed by a rest that holds no frame |
| StreamParser.FramesDecode | src/mqtt_codec.c:1084-1196 | a list of decodable frames is reported as that list |
| StreamParser.ChunkedFramesDecode | src/mqtt_codec.c:1063-1199 | the same in any non-empty chunks |
| Framing.BytesAreAFrame | src/mqtt_codec.c:336-377 | what each encoder builds is a frame that says what was sent |
| Framing.DecodesIffFits | src/mqtt_codec.c:541-552 | an encoded packet is decoded if and only if its body is at most 2,097,151 bytes |
| Framing.PacketListRoundTrip | src/mqtt_codec.c:1063-1199 | any list of CONNECT, PUBLISH, acknowledgements, SUBSCRIBE, UNSUBSCRIBE and PINGRESP, in any chunks, is reported as that list and leaves the decoder fresh |
| Reader.ReadUint16 | src/mqtt_client.c:185-198 | two bytes big-endian, or zero without moving |
| Reader.ReadUtf | src/mqtt_client.c:200-231 | the string and the new position, or NULL exactly when it is empty or does not fit |
| Reader.ParsePublish | src/mqtt_client.c:729-776 | the moving-pointer parser computes the specified message |
| Reader.DeliveryCondition | src/mqtt_client.c:729-803 | delivery if and only if the topic is non-empty and fits and a required id is there and non-zero; the parts delivered encode back to the body |
| PublishRoundTrip.BodyRoundTrip | src/mqtt_client.c:729-803 | a body parses back to its message exactly for faithful messages |
| PublishRoundTrip.PublishReadAs | src/mqtt_client.c:729-803 | what the receiver makes of any message whose body it gets, unfaithful ones included |
| PublishRoundTrip.FlaggedQos0Misread | src/mqtt_client.c:731-771 | what becomes of a QoS 0 message with dup or retain |
| PublishRoundTrip.RetainedMessageMisread | src/mqtt_client.c:733 | a concrete retained message that comes out as QoS 2 |
| PublishRoundTrip.LongPublishRefused | src/mqtt_codec.c:541-552 | a longer PUBLISH is refused at its fourth length byte |
| PublishRoundTrip.PublishIsFaithfulIff | src/mqtt_codec.c:754-869 | encode, cut, decode and parse give back exactly the message if and only if it is faithful and fits |
| EndToEnd.PacketGives | src/mqtt_client.c:816-1050 | a packet gives the application the message of a parseable PUBLISH and nothing else |
| EndToEnd.PublishTotality | src/mqtt_client.c:729-814 | a PUBLISH with a body gives its message or takes the parse-error path, never both and never neither; with no error callback that path reports nothing |
| EndToEnd.ChunksGive | src/mqtt_client.c:510-525 | any sequence of chunks gives the messages of all packets reported, once each, in order |
| EndToEnd.ClientDeliversIff | src/mqtt_client.c:797 | the message callback gets exactly the message sent, once, if and only if it is faithful and fits |
| EndToEnd.HalfPacketOutlivesConnection | src/mqtt_client.c:510-525 | after a connection lost two bytes into a PUBLISH, the next connection's CONNACK is handled as the body of that PUBLISH |
| Effects.InitialEffect | src/mqtt_client.c:1068-1120 | the fields of a new client |
| Effects.SendEffect | src/mqtt_client.c:425-448 | an accepted packet is out, also when the clock cannot be read and the call fails; the send time is that reading |
| Effects.ClosedEffect | src/mqtt_client.c:121-132 | a close that is reported clears the socket bit and tells a registered callback |
| Effects.CloseEffect | src/mqtt_client.c:134-160 | the outputs of a close; on return the connection is closed if xio_close closed it at once or, without a callback, within 20 rounds |
| Effects.ErrorEffect | src/mqtt_client.c:162-169 | every error is reported to a registered callback and then closes; which error an I/O failure and a decode failure are |
| Effects.OpenEffect | src/mqtt_client.c:450-492 | a new socket: the CONNECT is the next output, or its failure with the error and a pending close |
| Effects.OpenFailedEffect | src/mqtt_client.c:493-501 | a failed open, and an open on an open socket |
| Effects.SendCompletedEffect | src/mqtt_client.c:248-277 | completed, failed and cancelled sends |
| Effects.ConnAckEffect | src/mqtt_client.c:832-876 | CONNACK: what is well-formed, the session bit, return codes from 6 on reported as 6, and that code 0 alone accepts |
| Effects.ReplyEffect | src/mqtt_client.c:678-727 | the four bytes of each acknowledgement, and the error when its send fails |
| Effects.AckEffect | src/mqtt_client.c:678-727 | which acknowledgement a QoS gets, also from mqtt_client_send_message_response, which refuses id 0 |
| Effects.PublishEffect | src/mqtt_client.c:729-814 | message callback and synchronous acknowledgement, or a parse error |
| Effects.PublishReplyEffect | src/mqtt_client.c:882-943 | the callback with the packet id, and PUBREL after PUBREC and PUBCOMP after PUBREL |
| Effects.WrongLengthEffect | src/mqtt_client.c:882-893 | acknowledgements of any length but two are errors |
| Effects.SubAckEffect | src/mqtt_client.c:944-1003 | the packet id and the codes, after an error if a reserved bit ends them |
| Effects.UnsubAckEffect | src/mqtt_client.c:1004-1027 | the packet id |
| Effects.PingResponseEffect | src/mqtt_client.c:1028-1039 | a PINGRESP clears the time stamp, no PINGREQ counts as unanswered any more, and the application is told |
| Effects.IgnoredEffect | src/mqtt_client.c:829-830 | packets without a body and those only a client sends change nothing |
| Effects.ConnectEffect | src/mqtt_client.c:1136-1175 | the new settings; the ping limit is half the interval rounded down, at most 80 |
| Effects.CallEffect | src/mqtt_client.c:1177-1335 | publish, subscribe and unsubscribe send what was built, and do nothing if nothing was |
| Effects.DisconnectEffect | src/mqtt_client.c:1356-1418 | DISCONNECT as E0 00 once accepted, otherwise a close |
| Effects.PendingCloseEffect | src/mqtt_client.c:1427-1432 | a pending close closes and is pending no more |
| Effects.ElapsedEffect | src/mqtt_client.c:1452-1459 | elapsed times are differences modulo 2^64 |
| Effects.CheckEffect | src/mqtt_client.c:1438-1491 | timeout in whole milliseconds from the limit, PINGREQ as C0 00 not before an interval has passed, and what each failure does |
| Effects.CallbackEffect | src/mqtt_client.c:121-132 | what each callback out of xio_dowork does |
| Effects.BytesEffect | src/mqtt_client.c:510-525 | the packets of a chunk are handled in order; a chunk that fails, as an empty one does, resets the codec and is a parse error |
| Effects.DoWorkEffect | src/mqtt_client.c:1420-1494 | nothing without a handle; a pending close and nothing more; otherwise I/O and then the check |
| ClientSpec.SubackOneCodePerByte | src/mqtt_client.c:966-985 | one code for each byte up to the first with a reserved bit |
| Effects.SubackNumbers | src/mqtt_client.c:974-978 | return codes 0, 1 and 2 are the QoS values, and all others the failure code |
| Client.ReadSubackCodes | src/mqtt_client.c:966-985 | the loop over the return codes computes that list |
| Client.MqttClient.constructor | src/mqtt_client.c:1068-1120 | the initial fields, with a fresh codec |
| Client.MqttClient.SendPacketItem | src/mqtt_client.c:425-448 | success and send time exactly as the send and the clock answered |
| Client.MqttClient.OnConnectionClosed | src/mqtt_client.c:121-132 | the socket bit is cleared and a registered callback told |
| Client.MqttClient.CloseConnection | src/mqtt_client.c:134-160 | the retry loop ends with the socket closed exactly when the close came within 20 rounds (or at once, with a callback), and the handle dropped |
| Client.MqttClient.SetErrorCallback | src/mqtt_client.c:162-169 | report, then close |
| Client.MqttClient.OnOpenComplete | src/mqtt_client.c:450-508 | the CONNECT packet that mqtt_codec_connect makes of the options goes out, on a new socket only; every failed open or send, but not options the encoder refuses, marks the connection for closing |
| Client.MqttClient.SendConnect | src/mqtt_client.c:472-482 | a CONNECT that cannot be sent is reported and marks the connection for closing |
| Client.MqttClient.SendComplete | src/mqtt_client.c:248-277 | a completed DISCONNECT marks the connection for closing; a failed send closes |
| Client.MqttClient.SendMessageAck | src/mqtt_client.c:678-727 | PUBREC for QoS 2, PUBACK for QoS 1, nothing for QoS 0 |
| Client.MqttClient.ProcessPublishMessage | src/mqtt_client.c:729-814 | message callback or parse error, and a synchronous acknowledgement |
| Client.MqttClient.ProcessSubAck | src/mqtt_client.c:944-1003 | the codes read, with the error for a reserved bit and for a one-byte packet |
| Client.MqttClient.RecvCompleteCallback | src/mqtt_client.c:816-1050 | the effect of each packet type on fields and log |
| Client.MqttClient.OnBytesReceived | src/mqtt_client.c:510-525 | the events of all packets of a chunk, then reset and parse error on failure |
| Client.MqttClient.Connect | src/mqtt_client.c:1136-1175 | interval, ping limit and cleared ping time; the handle is dropped if the open fails |
| Client.MqttClient.Publish | src/mqtt_client.c:1177-1239 | the encoded message is sent; nothing changes when its topic or payload is too long |
| Client.MqttClient.Subscribe | src/mqtt_client.c:1241-1287 | the encoded list is sent, or nothing changes |
| Client.MqttClient.Unsubscribe | src/mqtt_client.c:1289-1335 | the encoded list is sent, or nothing changes |
| Client.MqttClient.SendMessageResponse | src/mqtt_client.c:1337-1354 | a late acknowledgement, refused for packet id 0 |
| Client.MqttClient.Disconnect | src/mqtt_client.c:1356-1418 | DISCONNECT when accepted by the server, otherwise a close |
| Client.MqttClient.ClearXio | src/mqtt_client.c:1052-1066 | the handle is dropped |
| Client.MqttClient.CheckKeepAlive | src/mqtt_client.c:1438-1491 | timeout before ping, ping when due, all three clock readings |
| Client.MqttClient.DoWork | src/mqtt_client.c:1420-1494 | for any I/O callbacks in between, the call is a run of the events these callbacks make, in order, and then the watchdog; nothing without a handle, and only the close when one is pending |
| QuietSteps.CalmEvent | src/mqtt_client.c:450-1432 | every handler but connect and the watchdog leaves the watchdog's settings alone, sets its send time to the clock reading of a send only, clears a ping's stamp and its record together, drops an unanswered PINGREQ only when it is answered or its connection is over, and sends no PINGREQ while one is unanswered |
| KeepAliveRuns.WatchdogKeepsSendInv | src/mqtt_client.c:1439-1489 | after a check the last send is less than an interval old, or the connection has been given up; a stamp was read after the first unanswered PINGREQ |
| KeepAliveRuns.WatchdogKeepsStampInv | src/mqtt_client.c:1451-1479 | after a check the stamp is that of the last PINGREQ, which nobody has answered and which was not overdue |
| KeepAliveRuns.NotDueWhileUnanswered | src/mqtt_client.c:1451-1459 | with the margin kept, the timeout branch pre-empts the ping branch |
| KeepAliveRuns.KeepAliveBound | src/mqtt_client.c:1439-1489 | in every run, less than an interval plus D since the last send while checks are at most D apart; less than one and a half intervals for D up to half |
| KeepAliveRuns.NoSecondPing | src/mqtt_client.c:1451-1479 | in every steady run, that is one whose stamps are all read within the margin, no PINGREQ goes out while one is unanswered |
| KeepAliveRuns.NoSecondPingIff | src/mqtt_client.c:1459-1479 | that holds of all runs of an interval if and only if stamps are always read and within the margin of the send |
| KeepAliveRuns.TimeoutPutOff | src/mqtt_client.c:1451-1479 | beyond the margin or with unread stamps, for every interval and any number of checks the clock has room for: a run that pings at every check, reports no timeout and leaves the first PINGREQ unanswered |
| KeepAliveRuns.TimeoutInTimeIff | src/mqtt_client.c:1451-1479 | in all runs of an interval the last check finds the first unanswered PINGREQ within its deadline if and only if stamps are always read and within the margin of the send |
| KeepAliveRuns.UnreadStampsNeverTimeOut | src/mqtt_client.c:1473 | a run whose ping stamps cannot be read never reports NO_PING_RESPONSE, whatever goes unanswered |
| KeepAliveRuns.PingTimeoutNotEarly | src/mqtt_client.c:1451-1457 | whatever readings fail or come late, NO_PING_RESPONSE is reported only by a check at least min(80, K / 2) + 1 seconds after the first PINGREQ since the last connect call that no PINGRESP has followed |
| KeepAliveRuns.LastPingNotEarly | src/mqtt_client.c:1451-1479 | with stamps that are always read, however late, the same from the last such PINGREQ |
| KeepAliveRuns.PingTimeoutNotLate | src/mqtt_client.c:1451-1479 | in every steady run, while a PINGREQ is unanswered on an open connection the deadline of the first such PINGREQ has passed by less than the check gap |
| KeepAliveRuns.OverdueCheckReports | src/mqtt_client.c:1451-1479 | in every steady run a check at or after that deadline reports the timeout and gives the connection up |
| KeepAliveRuns.LastPingNotLate | src/mqtt_client.c:1451-1479 | however late the stamps, the deadline of the last unanswered PINGREQ, put off by the lateness, has passed by less than the check gap |
| KeepAliveRuns.LastPingOverdueReports | src/mqtt_client.c:1451-1479 | however late the stamps, a check at or after the deadline of the last unanswered PINGREQ reports the timeout and gives the connection up |
| EventLaws.TimeoutMeansUnanswered | src/mqtt_client.c:1028-1457 | NO_PING_RESPONSE is reported only for a PINGREQ that went out after every PINGRESP packet that arrived and every connect call, at least min(80, K / 2) + 1 seconds before the check |
| EventLaws.NoEarlyPing | src/mqtt_client.c:1451-1459 | in every run a PINGREQ is attempted only by a check at least an interval after the last send, unless the connection was given up since |
| EventLaws.OpenedByEvent | src/mqtt_client.c:450-463 | every socket of a run is opened by a successful onOpenComplete on a client without one |
| EventLaws.OpenedSocketGetsConnect | src/mqtt_client.c:463-482 | in every run, with options mqtt_codec_connect takes, the CONNECT attempt directly follows the open |
| EventLaws.ConnectSaysOptions | src/mqtt_client.c:466-472 | what a server decodes from that CONNECT are the options |
| ConnectionOrder.SocketBit | src/mqtt_client.c:121-160 | in every run, accepted opens less sockets closed is the SOCKET_CONNECTED bit |
| ConnectionOrder.ConnectOncePerSocket | src/mqtt_client.c:450-508 | two CONNECT attempts of a run have a close of the socket between them |
| ConnectionOrder.AcceptedBeforePingOrDisconnect | src/mqtt_client.c:836-876 | every PINGREQ or DISCONNECT of a run comes after a well-formed CONNACK with code 0 |
| ConnectionOrder.GracefulDisconnect | src/mqtt_client.c:1356-1432 | DISCONNECT, its completion and the next dowork: exactly these outputs, the handle dropped, and the callback told only if there is one |
| Handshake.ClientFollowsReplyRules | src/mqtt_client.c:729-943 | the handler's bytes, decoded by the other side, are the reply of sections 4.3.2 and 4.3.3 of MQTT 3.1.1, with the same packet id; an unreadable PUBLISH gets none |
| Handshake.DeliverKeepsInv | src/mqtt_client.c:882-943 | every delivery settles its part, hands over its message, lowers the deliveries owed by one and keeps the books balanced |
| Handshake.PublishKeepsInv | src/mqtt_client.c:1177-1239 | every publish the encoder accepts, faithful or not, puts on the channel what the receiver makes of it, and keeps the books balanced |
| HandshakeRuns.HandshakesConserveAndTerminate | src/mqtt_client.c:678-943 | for every run, whatever is published: QoS 1 and 2 exchanges as read are those in flight plus those ended by PUBACK or PUBCOMP, for each direction and id; each message as read is in flight or was handed to the application, once; deliveries and packets in flight stay within what the messages as read call for; an empty channel means all is settled |
| HandshakeRuns.ChannelEmpties | src/mqtt_client.c:678-943 | every run can be completed: exactly as many deliveries as are owed empty the channel and settle everything |
| HandshakeRuns.FaithfulMessageRun | src/mqtt_client.c:678-943 | a faithful message of QoS 0, 1 or 2 takes one, two or four deliveries, ends with the acknowledgement of its id, and is handed over |
| HandshakeRuns.ConservedAsPublishedIff | src/mqtt_client.c:733-771 | in all runs that publish given messages the exchanges published are those in flight plus those ended, if and only if each message is faithful and fits the decoder, or is unacknowledged and lost on the way |
| HandshakeRuns.BoundedAsPublishedIff | src/mqtt_client.c:733-771 | in all such runs no more deliveries are made than the QoS of the messages calls for, if and only if each is faithful or does not get through |
| HandshakeRuns.DeliveredAsPublishedIff | src/mqtt_client.c:733-803 | in all such runs exchanges, messages handed over and deliveries are those published, each once, if and only if all messages are faithful and fit the decoder |
| HandshakeRuns.RetainedMessageRun | src/mqtt_client.c:733-943 | a retained QoS 0 message between two clients in any state: four deliveries and a completed exchange that was never published |

## Left out

- Allocation failures: `malloc` and `BUFFER_*` are taken to succeed, so the MEMORY_ERROR reports and NULL results they cause are not modelled; a SUBACK of two bytes is taken to get its zero-size allocation.
- NULL handles and buffers: the model's references are never NULL. An empty chunk, which the codec refuses in the same branch as a NULL buffer, is modelled.
- Bodies of 2^28 bytes or more, for which the length loop would leave its array: a precondition of the encoders, as is a non-NULL client id.
- Encoder.Connect: the bytes left unwritten for a present but empty field have arbitrary values, as after the allocation in the source.
- Client.MqttClient.OnOpenComplete: takes the client's option record as an argument, because the copying into the client and the clearing of that record are not modelled.
- Client.MqttClient.OnBytesReceived: handles the packets of a chunk after the codec has used it; a callback that calls back into the codec or the client in mid-step is not modelled.
- Embedded zero bytes: a received topic is delivered with all its bytes, although an application that reads it as a C string sees it up to the first zero.
- HandshakeRuns.HandshakesConserveAndTerminate: a parse error does not stop later deliveries, although the source asks for a close, and a PUBLISH that the decoder refuses is lost without one; the channel loses nothing, sends are accepted and acknowledgements are synchronous; retransmission and duplicate suppression are not in the source.
- Heap ownership: who frees what, and the buffer that a reset drops.
- How often the disconnect callback runs: the source never clears it, nor CLIENT_CONNECTED.
- The message record of `src/mqtt_message.c` beyond its fields, option cloning, init and deinit beyond the initial state: record handling.
- Trace and raw logging, enum-to-string functions, the samples and the build: no effect on the protocol.
