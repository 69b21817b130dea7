# Verified model of the JT1078 servers

Cars stream JT/T 1078 video to `jt1078_server`, whose `ForwardServer` sends it on to `pc_server`
and `web_server` over a private framing; those relay it to viewers. This project models the logic
of these event-loop servers in Dafny and proves what holds over all their runs.

`dafny verify dfyconfig.toml` checks everything.

## How it is laid out

Code that changes state step by step is a class or a method with loops, proved to do what a
function on plain values says. The theorems are about those functions, over every sequence of
events.

- Subscriptions: `PcModel` (what every event does at the viewer server, and its invariant),
  `PcEffects` (the same told session by session and request by request), `PcPublisher` and
  `PcServer` (the running code), `ForwardModel`, `ForwardEffects` and `ForwardServer` (the same
  one level up, with the commands that open and close a car), `Protocol` (both ends, the link with
  requests in flight, other peers, failures and reconnects as one transition system). `Channels`,
  `Ids`, `Ordered`, `Tables` and `Alternation` hold what they share.
- Decoding: `Bytes`, `Framing` (any incremental parser over any cutting of the stream), `Buffer`,
  `Jt1078Parser`, `Jt1078Decoder`, `CarSession`, `IpcPacket`, `IpcDecoder`, `DeviceId`.
- Sending: `TcpSession` (partial writes against an arbitrary kernel), `Subscriber` (framing of a
  JT1078 packet), `Relay` (what the viewer server does with the packets that arrive), `EndToEnd`
  (the servers composed: messages delivered to a connection, its bytes in flight, the reads, the
  reconnects, up to the bytes on a viewer's wire), `Service` (that and `Protocol` at work
  together: what is published for a device reaches the viewers that stay in its channel),
  `Joining` (how a stay begins, in any state of the service).
- Threads: `SafeQueue` (the interleaved steps of any number of threads in the bounded queue),
  `WorkThread`.
- Audio: `Adpcm`.
- Reference counting by callbacks: `TopicModel` and `CarWebSocketServer`, `SrsModel` and
  `SrsSessions`.

## What is assumed

- Session numbers and connection handles are not used again while the process runs
  (core/tcp/TcpSession.cpp:7-14 counts up).
- A null upstream client is the same as one that is not connected. pc_server/PcServer.cpp:229 and
  :261 use the client without looking, so the failing of a viewer while there is no client is
  modelled as if they looked.
- Each request to the upstream server is written whole: jt1078_client/Jt1078Client.cpp:24 does not
  keep what a short write leaves.
- A request of a viewer names a device by any string, read as strtoull does in the C locale. A
  number too wide for the type is read as the largest value of the type, also behind a minus sign,
  as glibc does.
- The kernel's answers to sends are arbitrary: a number of bytes, would-block, or a break. An
  interrupted call is repeated by the source until it is not; only the last answer counts.
- `std::string::reserve` grants what is asked for, the least the standard promises, and no less
  than what is already there. Writing behind that capacity counts as leaving the buffer, also
  where a library happens to hold more.

## Where the code and its documentation differ

- README.md:45 of the repository says clients subscribe again after a reconnect. `WebServer`
  (web_server/http/WebServer.cpp:126-137) does not, and no such claim is made for it; `PcServer`
  does, and `Protocol.Drained` is about it. Requests that viewers send while `PcServer` is not
  connected are dropped (pc_server/PcServer.cpp:86-91).
- core/ipc_packet/IpcPktDecoder.cpp:92-98 enlarges the packet buffer for a long body, but never
  enough for head and terminator when there was no room before (`IpcDecoder.RoomForPacket`), so a
  packet of 1008 bytes is written past its end (`IpcDecoder.OnePacket`). `IpcDecoder.Reader.Serve`
  says that longer packets are exactly what does it, and `EndToEnd.ReadsAreShort` that the
  repository's own frames never do.
- jt1078/jt1078_server/Jt1078Util.cpp:16-36 reads ids of up to sixteen hex digits and prints
  fourteen. An id that needs more, by a long string or by a minus sign, does not come back from
  printing (`DeviceId.RewrittenUnlessCanonical`, `DeviceId.FitsUnlessNegative`). A viewer of such a
  device is starved by a reconnect (`Protocol.ReconnectStarves`), so the results about
  subscriptions are for connections that came up with printable ids, which is exactly when they
  start out right (`PcModel.ReconnectExact`); and the websocket server's notices about it go out
  of order (`TopicModel.NoticesAlternate`, `TopicModel.MinusOne`).
- The same file, lines 30-36, puts a terminator behind its sixteen bytes when the id has sixteen
  digits (`DeviceId.GenerateDeviceIdStrByDeviceId`). Everywhere else a printed id means its text up
  to the first terminator, which is all that is read of it (`DeviceId.ParseUpToNul`).
- The two senders queue under differently worded conditions (pc_server/PcSession.cpp:95 looks at
  the can-write flag, jt1078/forward_server/Subscriber.cpp:99 at the error number). Both are shown
  to do the same on a writable connection; what differs on another is in
  `TcpSessions.TcpSession.SendMsg`.

## Model

| member | source | states |
|---|---|---|
| `Protocol.Agreement` | pc_server/PcServer.cpp:112-132 | over every run, while the link stands and is healthy: what the forwarding server has this session down for, with the requests in flight applied in order, equals what the viewer server believes; and if every watched id could be printed when the link came up, that lies between the watched and the recorded devices |
| `Protocol.Drained` | jt1078/forward_server/ForwardServer.cpp:86-127 | with every request arrived, after any number of reconnects: if every watched id could be printed when the link came up, each watched device has a server channel holding this session, and each such channel is recorded by a live viewer |
| `Protocol.CanDrain` | jt1078/forward_server/ForwardServer.cpp:66-81 | from any state of an unbroken link, letting the requests in flight arrive ends with none in flight and, if it came up with printable ids, with every watched device served; viewers untouched |
| `Protocol.DrainedServes` | jt1078/forward_server/ForwardServer.cpp:86-127 | with every request arrived the service is right exactly when the believed devices lie between the watched and the recorded ones |
| `Protocol.SubscriberIsServed` | pc_server/PcServer.cpp:236-251 | in any state of a healthy connection any viewer that subscribes, by any string, is in its channel, and once the requests on the way have arrived it is served if and only if others were not watching already or the device was believed subscribed; on a link that came up with printable ids always |
| `Protocol.ReceivedAs` | jt1078/forward_server/ForwardServer.cpp:66-81 | a request acts by its low byte: 2 subscribes, 3 unsubscribes the device its string names, any other does nothing |
| `Protocol.RunSigns` | pc_server/PcServer.cpp:127-131 | over every run everything sent upstream carries the mark of the viewer server, 0x30000 |
| `Protocol.RequestOpensCar` | jt1078/forward_server/ForwardServer.cpp:105-117 | over every run, a subscribe request of the viewer server that arrives for a device without a channel makes the channel, joins it and opens the car, once |
| `Protocol.ConnectsRightly` | pc_server/PcServer.cpp:112-132 | a new link starts with the right requests if and only if every watched id can be printed |
| `Protocol.ReconnectStarves` | pc_server/PcServer.cpp:112-132 | a run: subscribe by any string, lose the link, dial again, let every request arrive; the viewer is served if and only if its id can be printed |
| `Protocol.NothingLeaks` | jt1078/forward_server/ForwardServer.cpp:56-65 | in every state of a standing connection, also after the server found it unwritable or dead: a channel holds this session only for a device the requests taken ask for, never once the session is gone, and with no request in flight, on a link that came up with printable ids, only for recorded devices |
| `Protocol.RunKeeps` | pc_server/PcServer.cpp:221-273 | the joint invariant holds over every interleaving of viewers, frames, requests, other peers, failures and reconnects |
| `Protocol.StepKeeps` | pc_server/PcServer.cpp:82-173 | every single event of the whole system keeps the joint invariant |
| `Protocol.OthersDoNotMatter` | jt1078/forward_server/ForwardServer.cpp:56-65 | what other sessions do, or a frame that does not hit this session, leaves this session's channels as they are |
| `Protocol.ReceivedMembership` | jt1078/forward_server/ForwardServer.cpp:86-127 | taking in a request changes the session's membership exactly as the request says |
| `Protocol.ConnectKeeps` | pc_server/PcServer.cpp:112-132 | a fresh connection starts from no membership and no request taken, whatever the old one left behind |
| `Protocol.RequestKeeps` | jt1078/forward_server/ForwardServer.cpp:66-81 | one arriving request keeps server membership equal to the fold of the requests taken |
| `PcModel.UnsubscribeKeeps` | pc_server/PcServer.cpp:253-267 | leaving keeps watched within subscribed within recorded, and the session ends in no channel |
| `PcModel.SubscribeKeeps` | pc_server/PcServer.cpp:236-251 | subscribing or switching device, by any string, keeps watched within subscribed within recorded |
| `PcModel.SwitchKeeps` | pc_server/PcServer.cpp:221-240 | between leaving the old device and entering the new one the invariant already holds again |
| `PcModel.Leave` | pc_server/PcServer.cpp:253-265 | after a session leaves, its old device stays subscribed only if another member is recorded for it |
| `PcModel.EnteredBelieves` | pc_server/PcServer.cpp:241-250 | entering a channel makes exactly that device subscribed in addition |
| `PcModel.ViewerPacketKeeps` | pc_server/PcServer.cpp:82-105 | any viewer request with any data, also one ignored while disconnected, keeps the invariant |
| `PcModel.ViewerErrorKeeps` | pc_server/PcServer.cpp:269-273 | a failing session keeps the invariant, leaves the table of viewers and is in no channel |
| `PcModel.PublishKeeps` | pc_server/PcPublisher.cpp:11-37 | pruning unwritable viewers in the publish loop keeps the invariant |
| `PcModel.ReconnectExact` | pc_server/PcServer.cpp:112-132 | after a successful dial the believed devices are exactly the watched ones, and the invariant holds, if and only if every watched id can be printed in fourteen digits |
| `PcModel.ReconnectLoses` | jt1078/jt1078_server/Jt1078Util.cpp:30-36 | after subscribing by any string and losing the link, the redial restores the invariant if and only if the id can be printed |
| `PcModel.TooManyDigits` | jt1078/jt1078_server/Jt1078Util.cpp:16-36 | 16^14 in fifteen digits and the string -1 are ids that cannot be printed |
| `PcModel.FoldAskFor` | pc_server/PcServer.cpp:127-131 | asking by regenerated id strings subscribes exactly the devices those strings name |
| `PcEffects.SubscribePlaces` | pc_server/PcServer.cpp:236-251 | any viewer, any state with a connection: after a subscribe request the string is on record, and the viewer is in the channel of the device it names and in no other, whoever was there before; everybody else stays where they were |
| `PcEffects.SubscribeSays` | pc_server/PcServer.cpp:221-251 | what is said upstream, in this order: type 0x30003 for the device it had, unless it named the same string or others watch that; type 0x30002 for the new one, unless others watch it |
| `PcEffects.SubscribeBelieves` | pc_server/PcServer.cpp:241-250 | afterwards the device is believed subscribed, unless others were watching it already and it was not |
| `PcEffects.UnsubscribePlaces` | pc_server/PcServer.cpp:253-267 | after an unsubscribe request nothing is on record, the viewer is in no channel, nobody else has moved, and the device is given up unless others watch it |
| `PcEffects.FailurePlaces` | pc_server/PcServer.cpp:269-273 | a failing viewer leaves the same way and the table too; its device is given up only while there is a connection |
| `PcEffects.ElseIgnored` | pc_server/PcServer.cpp:86-104 | a packet of another type, or any packet while upstream is not connected, does nothing |
| `PcEffects.SilentWhileDown` | pc_server/PcServer.cpp:151-165 | between losing a connection and the next success nobody is heard, nobody moves, and nothing counts as said |
| `PcEffects.ComesAndGoes` | pc_server/PcServer.cpp:64-110 | a viewer that connects and fails at once leaves no trace |
| `PcEffects.PublishPlaces` | pc_server/PcPublisher.cpp:11-37 | a frame takes out of its own channel exactly the sessions found unwritable |
| `PcEffects.ReconnectSays` | pc_server/PcServer.cpp:112-132 | a new connection starts with one request of type 0x30002 for each device somebody watches, by its printed id, the least first, and nothing else |
| `PcEffects.HeartbeatSays` | pc_server/PcServer.cpp:166-174 | type 0x30001 while there is a connection, and nothing else changes |
| `PcServers.PcServer.TryUnsubscriberOldDeviceId` | pc_server/PcServer.cpp:221-234 | the running state becomes that of the transition model |
| `PcServers.PcServer.SubscribeDeviceId` | pc_server/PcServer.cpp:236-251 | the running state becomes that of the transition model, for which `PcEffects.SubscribePlaces` and `PcEffects.SubscribeSays` say who is where and what was sent |
| `PcServers.PcServer.UnSubscribeDeviceId` | pc_server/PcServer.cpp:253-267 | the running state becomes that of the transition model |
| `PcServers.PcServer.OnPacketCompleted` | pc_server/PcServer.cpp:82-105 | requests act as in the transition model and are ignored while upstream is not connected |
| `PcServers.PcServer.OnPacketError` | pc_server/PcServer.cpp:106-110 | the failing session leaves channel and table as in the transition model |
| `PcServers.PcServer.OnClientConnect` | pc_server/PcServer.cpp:112-132 | a failed dial clears the link; a successful one sends the requests of the transition model in ascending order |
| `PcServers.PcServer.Resubscribe` | pc_server/PcServer.cpp:127-131 | one request per device, in ascending order, behind those already sent |
| `PcServers.PcServer.OnHeartbeatTimer` | pc_server/PcServer.cpp:166-174 | a heartbeat only while connected |
| `PcServers.PcServer.OnNewConnection` | pc_server/PcServer.cpp:64-80 | a new session with nothing recorded and a fresh connection, or nothing at all if it cannot be initialised |
| `PcServers.PcServer.OnClientMessage` | pc_server/PcServer.cpp:134-150 | a packet whose low type byte is 4 is offered unchanged to exactly the members of the channel its first eight bytes name, little-endian; exactly those left unwritable are dropped; other types do nothing |
| `PcPublishers.PcPublisher.Publish` | pc_server/PcPublisher.cpp:11-37 | with erasing inside the loop: each member is offered the packet once, the channel keeps exactly the writable ones |
| `PcPublishers.PcPublisher.AddSubscriber` | pc_server/PcPublisher.cpp:38-53 | one more member, channel made if need be, an existing member untouched |
| `PcPublishers.PcPublisher.DelSubscriber` | pc_server/PcPublisher.cpp:54-63 | one member less, other channels untouched |
| `PcPublishers.PcPublisher.SizeSubscriber` | pc_server/PcPublisher.cpp:73-82 | number of members, zero without a channel |
| `PcPublishers.PcPublisher.GetAllDeviceId` | pc_server/PcPublisher.cpp:84-101 | filtered: exactly the devices somebody watches; unfiltered: all with a channel |
| `ForwardModel.CommandsAlternate` | jt1078/forward_server/ForwardServer.cpp:86-168 | over every run, per device: creations and closes strictly alternate, a creation first; the channel exists iff there is one creation more; opens stand exactly behind the creations noted as not the web server's, which by `ForwardEffects.SubscribeSays` are those of requests not marked 0x20000 |
| `ForwardEffects.SubscribePlaces` | jt1078/forward_server/ForwardServer.cpp:86-118 | the subscriber is in the channel, which is made if need be; nobody else moves |
| `ForwardEffects.SubscribeSays` | jt1078/forward_server/ForwardServer.cpp:105-116 | a channel made is noted, and the car is opened if and only if the 0x000f0000 bits of the request are not 0x20000; a channel that exists says nothing |
| `ForwardEffects.ReleaseSays` | jt1078/forward_server/ForwardServer.cpp:151-168 | exactly the channels nobody is in are removed, and their cars closed, in ascending order; no session moves |
| `ForwardEffects.UnsubscribeTakesOut` | jt1078/forward_server/ForwardServer.cpp:120-127 | one session out of one channel, then the release |
| `ForwardEffects.ErrorTakesOut` | jt1078/forward_server/ForwardServer.cpp:56-65 | one session out of every channel, then the release |
| `ForwardEffects.FramePlaces` | jt1078/forward_server/Channel.cpp:7-27 | a frame takes out of its own channel exactly the sessions found unwritable, and closes nothing |
| `ForwardEffects.MembersWant` | jt1078/forward_server/ForwardServer.cpp:56-127 | over every run a channel holds a session if and only if its last word about the device was to subscribe and no frame has found it unwritable since |
| `ForwardEffects.OpensOnRequest` | jt1078/forward_server/ForwardServer.cpp:105-116 | over every run a car has been opened as often as a request that was not marked 0x20000 found its device without a channel |
| `ForwardModel.NoneLeftEmpty` | jt1078/forward_server/ForwardServer.cpp:56-65 | after any run, a step that takes sessions out on request or on error leaves no channel empty |
| `ForwardModel.SubscribeKeeps` | jt1078/forward_server/ForwardServer.cpp:86-118 | a subscribe keeps alternation and the placing of opens |
| `ForwardModel.ReleaseKeeps` | jt1078/forward_server/ForwardServer.cpp:151-168 | releasing empty channels keeps alternation and leaves none empty |
| `ForwardModel.StepKeeps` | jt1078/forward_server/ForwardServer.cpp:56-81 | every event keeps the invariant |
| `ForwardServers.ForwardServer.ProcessPacketSubscriber` | jt1078/forward_server/ForwardServer.cpp:86-118 | channels and command log become those of the model, told by `ForwardEffects.SubscribePlaces` and `ForwardEffects.SubscribeSays` |
| `ForwardServers.ForwardServer.ProcessPacketUnSubscriber` | jt1078/forward_server/ForwardServer.cpp:120-127 | channels and command log become those of the model |
| `ForwardServers.ForwardServer.OnPacketCompleted` | jt1078/forward_server/ForwardServer.cpp:66-81 | low byte 2 subscribes, 3 unsubscribes, anything else is ignored |
| `ForwardServers.ForwardServer.OnPacketError` | jt1078/forward_server/ForwardServer.cpp:56-65 | the session is out of the table and of every channel, emptied channels are closed |
| `ForwardServers.ForwardServer.ReleaseChannelIfEmptySubscriber` | jt1078/forward_server/ForwardServer.cpp:151-168 | the erase-while-iterating loop closes exactly the empty channels, in ascending order |
| `ForwardServers.ForwardServer.DelSubscriberEverywhere` | jt1078/forward_server/Publisher.cpp:49-55 | the session is taken out of every channel, no channel is removed |
| `ForwardServers.ForwardServer.DelSubscriber` | jt1078/forward_server/Publisher.cpp:34-44 | the session is taken out of one channel, nothing happens without the channel |
| `ForwardServers.ForwardServer.SendMsg` | jt1078/forward_server/Channel.cpp:7-27 | each member is delivered the framed message once; exactly the members left unwritable are dropped |
| `ForwardServers.ForwardServer.SendPayload` | jt1078/forward_server/Channel.cpp:7-27 | the loop that erases members while it visits them: each is delivered the payload once under its own next number |
| `ForwardServers.ForwardServer.Publish` | jt1078/forward_server/ForwardServer.cpp:43-52 | a frame reaches exactly the members of its channel, framed and numbered, and the state becomes that of the model |
| `ForwardServers.ForwardServer.OnNewConnection` | jt1078/forward_server/ForwardServer.cpp:19-36 | a fresh subscriber in no channel, its frame counter unset, or nothing at all if it cannot be initialised |
| `Subscribers.RoundTrip` | jt1078/forward_server/Subscriber.cpp:122-151 | any messages framed one after another are read back as the same devices and packets in order, each payload byte by byte as it was copied; the k-th carries k mod 2^32 and type 0x10004; no frame announces more than the receiver has room for |
| `Subscribers.SubscriberReceives` | jt1078/forward_server/Subscriber.cpp:65-119 | whatever the kernel answers, the wire decodes to the first so-many messages, whole and in order; while the connection lasts nothing is missing |
| `Subscribers.OfferedIsCarried` | jt1078/forward_server/Subscriber.cpp:65-119 | packets offered to a fresh connection: the wire is a prefix of their bytes, decodes to the first so-many of them and is never refused; while it lasts wire and pending are all of them |
| `Subscribers.DeliverAllOffers` | jt1078/forward_server/Subscriber.cpp:140-151 | a fresh subscriber's frames carry the counts 0, 1, 2, ... as long as it is writable |
| `Subscribers.PayloadBack` | jt1078/forward_server/Subscriber.cpp:122-138 | device, header struct and body read back, the struct byte by byte at offset 8 and the body at 38; 16 + 8 + 30 + 950 + 1 <= 1024 |
| `Subscribers.HeaderBack` | jt1078/jt1078_server/Jt1078Header.h:35-70 | the copied struct reads back whole, and lies in the frame byte by byte: the mark as 64 63 31 30, then V = 2, P = X = 0, CC = 1 from the low bits up, then every field, bit fields included, at its offset |
| `IpcPacket.ParseOfImage` | core/ipc_packet/IpcPktDecoder.cpp:80-113 | a packet image followed by anything is read back whole |
| `IpcPacket.ParseMeans` | core/ipc_packet/IpcPktDecoder.cpp:80-115 | for any bytes: refused exactly if the first little-endian word is not 16, taken exactly if the data announced by the second is there; number and type are the third and fourth |
| `IpcPacket.ImageBytes` | core/ipc_packet/IpcPacket.h:27-30 | the four little-endian words of an image at 0, 4, 8 and 12, the data from 16 on |
| `IpcPacket.ImageOfParse` | core/ipc_packet/IpcPktDecoder.cpp:80-113 | the bytes a packet was read from are exactly its image |
| `IpcPacket.ReadCut` | core/ipc_packet/IpcPktDecoder.cpp:52-78 | a stream of packets cut anywhere reads as a prefix of them and is not refused |
| `IpcPacket.ReadAllImages` | core/ipc_packet/IpcPktDecoder.cpp:52-78 | a stream of packets reads as those packets with nothing left over |
| `IpcDecoder.Decoder.Decode` | core/ipc_packet/IpcPktDecoder.cpp:52-78 | one call takes one packet off the unread bytes as the reference parser does, wants more, or refuses, until it completes a packet with more than 1007 bytes of data, and exactly that writes past the packet buffer |
| `IpcDecoder.Decoder.ParseHeader` | core/ipc_packet/IpcPktDecoder.cpp:80-103 | header fields and buffer position after each outcome |
| `IpcDecoder.Decoder.ParseBody` | core/ipc_packet/IpcPktDecoder.cpp:104-115 | data and buffer position after each outcome; the copy and its terminator stay in the packet buffer or the overrun is recorded |
| `IpcDecoder.RoomForPacket` | core/ipc_packet/IpcPktDecoder.cpp:92-99 | the resize leaves room for head, data and terminator if and only if there was room before it |
| `IpcDecoder.ResizedMeans` | core/ipc_packet/IpcPktDecoder.cpp:92-99 | from 1024 the buffer grows to the length announced, and to 2048 at most |
| `IpcDecoder.Reader.OnMessage` | pc_server/PcSession.cpp:13-34 | one read is drained to exactly what the reference parser gives, or overruns the packet buffer if and only if one of those packets has more than 1007 bytes of data; a read that does not fit is lost |
| `IpcDecoder.Reader.Serve` | jt1078_client/Jt1078Client.cpp:50-72 | over a whole connection: some write leaves the packet buffer if and only if a completed packet has more than 1007 bytes of data; when no frame announces more, nothing is lost and the packets are those of the uncut stream, however it is cut |
| `IpcDecoder.KeptWhole` | core/ipc_packet/IpcPktDecoder.h:24-32 | when no frame announces more than 1007 bytes, reads of the usual size are all kept, up to a refusal, and no packet is too long |
| `IpcDecoder.OnePacket` | core/ipc_packet/IpcPktDecoder.cpp:104-115 | a packet alone on a fresh connection overruns the packet buffer if and only if it has 1008 bytes of data or more |
| `IpcDecoder.Reader.ReadFits` | core/ipc_packet/IpcPktDecoder.h:24-32 | with such frames the residue is under one frame, so a 5 KiB read always fits |
| `Framing.PiecesDoNotMatter` | core/ipc_packet/IpcPktDecoder.cpp:52-78 | for any incremental parser, frames and first refusal do not depend on how the stream is cut |
| `Framing.PrefixOfStream` | jt1078_client/Jt1078Client.cpp:50-72 | a cut-off stream yields a prefix of the frames |
| `CarSessions.CarSession.Serve` | jt1078/jt1078_server/CarSession.cpp:31-68 | chunking independence of the three-stage decoder behind the compacting buffer |
| `CarSessions.CarSession.ParseBuffer` | jt1078/jt1078_server/CarSession.cpp:31-68 | one read emits what the reference parser gives over all waiting bytes and leaves nothing that could be read; a full buffer is impossible for reads up to 5 KiB |
| `CarSessions.CarSession.ResidueIsShort` | jt1078/jt1078_server/CarSession.cpp:45-52 | what waits after a drain is no whole packet; at most 949 bytes of it lie in the buffer, so the next read fits |
| `CarSessions.CarSession.UpdateDeviceIdIfEmpty` | jt1078/jt1078_server/CarSession.cpp:69-77 | the session keeps the id of its first packet with a valid id |
| `CarSessions.IdIsSetOnce` | jt1078/jt1078_server/CarSession.cpp:71-71 | one more packet changes the id only while it is the invalid one |
| `Jt1078Decoder.Decoder.Decode` | jt1078/jt1078_server/Jt1078Decoder.cpp:55-93 | one call takes one packet off the unread bytes as the reference parser does, wants more, or refuses; success shrinks what is unread |
| `Jt1078Decoder.Decoder.ParseHeaderStep1` | jt1078/jt1078_server/Jt1078Decoder.cpp:94-199 | header and buffer position after each outcome, bits extracted as the standard lays them out |
| `Jt1078Decoder.Decoder.ParseHeaderStep2` | jt1078/jt1078_server/Jt1078Decoder.cpp:200-274 | type-dependent second half: fields and position, or the refusal of an over-long body |
| `Jt1078Decoder.Decoder.ParseBody` | jt1078/jt1078_server/Jt1078Decoder.cpp:275-288 | body and buffer position after each outcome |
| `Jt1078Parser.SerializeOfParse` | jt1078/jt1078_server/Jt1078Decoder.cpp:94-288 | writing an emitted packet by table 19 of JT/T 1078-2016, section 5.5.3, gives exactly the bytes it consumed |
| `Jt1078Parser.ParseMeans` | jt1078/jt1078_server/Jt1078Decoder.cpp:55-304 | for any bytes, by table 19: when the parser refuses, when it waits, and every field and the body of what it takes, by byte offset; headers of 30, 26 and 18 bytes by data type, bodies of at most 950 |
| `Jt1078Parser.FirstMeans` | jt1078/jt1078_server/Jt1078Decoder.cpp:104-198 | the first sixteen bytes are taken if and only if they are 30 31 63 64 81, a payload type of 6, 7, 8, 26, 91 or 98, a data type up to 4 and a mark up to 3 |
| `Jt1078Parser.ParseOfSerialize` | jt1078/jt1078_server/Jt1078Decoder.cpp:94-288 | every packet the standard can carry is read back whole |
| `Jt1078Parser.ParseIsIncremental` | jt1078/jt1078_server/Jt1078Decoder.cpp:55-93 | more bytes never change an answer already given |
| `Buffers.Buffer.Push` | core/ipc_packet/IpcPktDecoder.cpp:10-50 | whichever branch runs, the readable bytes become old plus new, or stay as they are when full; compacting and plain appends never reallocate |
| `Buffers.Buffer.AutoRemove` | core/buffer/Buffer.h:26-30 | compacting changes position, not the readable bytes |
| `Buffers.Buffer.Append` | core/buffer/Buffer.h:31-33 | the readable bytes gain the new ones at the end |
| `Bytes.Load16` | core/socket/Socket.h:16-16 | a memcpy load and ntohs give the big-endian value |
| `Bytes.Load32` | core/socket/Socket.h:17-17 | a memcpy load and ntohl give the big-endian value |
| `Bytes.Load64` | core/socket/Socket.h:18-24 | the half-swapping load gives the big-endian value of all eight bytes |
| `TcpSessions.RunConserves` | core/tcp/TcpSession.cpp:69-94 | for every run of short writes, blocks and breaks: wire plus pending is the accepted frames in order, no pending piece is empty, loss is whole frames at the end and only by a break |
| `TcpSessions.WireIsPrefix` | core/tcp/TcpSession.cpp:170-189 | the wire is always a prefix of the frames offered |
| `TcpSessions.SendConserves` | pc_server/PcSession.cpp:57-122 | one frame is accepted whole behind what was accepted before, or the connection is broken and no byte of it counts |
| `TcpSessions.FlushConserves` | core/tcp/TcpSession.cpp:69-94 | flushing moves bytes from pending to wire and loses none |
| `TcpSessions.FlushIsEager` | core/tcp/TcpSession.cpp:69-94 | a flush sends exactly the pieces the kernel takes whole and stops at the first it does not, with exactly the untaken rest of that piece, or all of it after an error, in front of the later ones |
| `TcpSessions.SendIsEager` | pc_server/PcSession.cpp:57-122 | a frame is sent as if it had been the last unsent piece: every piece the kernel takes whole has gone out, up to the first it does not; the rest is kept, the frame too unless the connection is not writable and the kernel has no part of it |
| `TcpSessions.NothingWaits` | jt1078/forward_server/Subscriber.cpp:65-119 | with a kernel that takes each frame whole nothing is ever pending and the wire is all frames |
| `TcpSessions.TcpSession.SendPendingBuffer` | core/tcp/TcpSession.cpp:69-94 | the running loop does what the flush function says and reports whether pending is empty |
| `TcpSessions.TcpSession.SendBuffer` | core/tcp/TcpSession.cpp:170-189 | return value, flag and wire after each kernel answer |
| `TcpSessions.TcpSession.SendPacket` | pc_server/PcSession.cpp:57-122 | the frame is sent as `TcpSessions.SendIsEager` says; true iff still writable |
| `TcpSessions.TcpSession.SendMsg` | jt1078/forward_server/Subscriber.cpp:65-119 | the frame is sent as `TcpSessions.SendIsEager` says, also on a connection already found unwritable, where it differs only by keeping a frame the kernel would take later; the sign of the result |
| `TcpSessions.TcpSession.GetIpcPktSeqId` | jt1078/forward_server/Subscriber.cpp:140-151 | the next number, wrapping through the invalid one |
| `TcpSessions.SeqIdIsCount` | jt1078/forward_server/Subscriber.cpp:140-151 | frame k carries k mod 2^32, also across the wrap |
| `Relay.Transparent` | pc_server/PcServer.cpp:134-150 | each viewer's wire is a prefix of exactly the frames that arrived while it was in the frame's device channel, in upstream order, each unchanged |
| `Relay.OfferedWhatIsHeard` | pc_server/PcPublisher.cpp:11-37 | a viewer's connection has been offered exactly what arrived while it was in the channel, over every run |
| `Relay.ForwardMeans` | pc_server/PcServer.cpp:134-150 | a packet whose low type byte is 4 goes to the channel its first eight bytes name; any other does nothing |
| `Relay.ForwardToPlaces` | pc_server/PcPublisher.cpp:11-37 | exactly the members are offered it, and exactly those it leaves unwritable are out of the channel |
| `EndToEnd.ViewerGets` | pc_server/PcServer.cpp:134-150 | over every run, through any number of connections between the servers and however bytes are cut and sends answered: a viewer's wire is a prefix of exactly the frames of the messages whose last byte was read while the viewer was in the channel of the message's device, unchanged and in order |
| `Service.NothingMissed` | jt1078/forward_server/Channel.cpp:7-27 | conservation: from the moment a viewer is in a channel that is served, until it acts or a link breaks, what it has been told of the device and what is on the way grow by exactly the messages published for the device, in order and each once |
| `Service.GetsEverything` | pc_server/PcServer.cpp:134-150 | once every byte is read and none waits to be sent, it has been told exactly what was on the way at first and everything published since |
| `Service.StaysServed` | jt1078/forward_server/ForwardServer.cpp:86-127 | whatever other viewers, other peers, frames and requests do meanwhile, the forwarding server goes on serving the device on that connection |
| `Service.DrainedIsSteady` | jt1078/forward_server/ForwardServer.cpp:86-127 | a viewer in a channel is served once every request has arrived, if the subscriptions are in step |
| `Joining.StayBegins` | pc_server/PcServer.cpp:236-251 | in any state any run can reach: any viewer that subscribes by any string is in its channel once the requests on the way have arrived, and is served there if and only if others were not watching already or the device was believed subscribed; on a link that came up with printable ids a stay always begins |
| `Joining.FirstStay` | pc_server/PcServer.cpp:236-251 | such a run from the very start: connect, subscribe by any string, let the requests arrive |
| `Service.PublishDrops` | jt1078/forward_server/Channel.cpp:7-27 | publishing keeps the connection in the channel exactly as long as it is writable |
| `Service.ToldIsCarried` | pc_server/PcServer.cpp:134-150 | the frames on a viewer's wire carry exactly what it was told |
| `Service.ChainRuns` | jt1078/forward_server/Channel.cpp:7-27 | every run of the whole service is a run of the path of the frames |
| `Service.RunCouples` | jt1078/forward_server/ForwardServer.cpp:43-81 | and keeps the invariant of the subscription protocol |
| `EndToEnd.NothingWithheld` | jt1078_client/Jt1078Client.cpp:50-72 | once every byte on the wire between the servers is read and none waits to be sent, every message delivered to the connection has been handed on |
| `EndToEnd.ReadsNext` | jt1078_client/Jt1078Client.cpp:50-72 | in every state of a connection a read of any size yields exactly the next frames of the messages delivered and is never refused |
| `EndToEnd.ReadsInStep` | jt1078_client/Jt1078Client.cpp:50-72 | and the bytes that wait afterwards are those of no frame handed on so far |
| `EndToEnd.FeedIsRelayed` | pc_server/PcServer.cpp:134-150 | handing on the packets of a read publishes each message to the channel of its own device |
| `EndToEnd.RunKeeps` | jt1078/forward_server/Subscriber.cpp:65-119 | both ends of the connection and all viewers' connections stay in step over every run, reconnects included |
| `EndToEnd.ReadsFit` | jt1078_client/Jt1078Client.cpp:50-72 | over every run a read of the usual size fits the decoder's read buffer |
| `EndToEnd.ReadsAreShort` | core/ipc_packet/IpcPktDecoder.cpp:104-115 | and no packet it completes is too long for the packet buffer |
| `Relay.ForwardToOffers` | pc_server/PcPublisher.cpp:11-37 | publishing one frame offers it to a viewer if and only if that viewer is in the channel |
| `SafeQueue.NoLostWakeup` | web_server/thread/SafeQueue.hpp:24-47 | any number of producers and consumers, notify outside the lock, spurious wakeups: a sleeper whose condition holds never coexists with no thread able to go on |
| `SafeQueue.BoundedFifo` | web_server/thread/SafeQueue.hpp:24-47 | over every run the length never exceeds the bound and tasks come out in the order they went in, each once |
| `SafeQueue.EveryCallOnce` | web_server/thread/SafeQueue.hpp:24-47 | over every run each thread's calls go through once each, in order, with the tasks they were made with; only its last may still be on its way |
| `SafeQueue.StepKeeps` | web_server/thread/SafeQueue.hpp:24-47 | every step keeps: free places at most pending notifications plus woken threads, for each kind of sleeper |
| `SafeQueue.GoingOnEnds` | web_server/thread/SafeQueue.hpp:24-47 | without new calls and spurious wakeups every schedule of the threads inside is finite, bounded by the work left |
| `SafeQueue.AtRest` | web_server/thread/SafeQueue.hpp:24-47 | when nobody can go on, poppers wait only on an empty queue and pushers only on a full one |
| `SafeQueue.ComesToRest` | web_server/thread/SafeQueue.hpp:24-47 | from every state the threads inside come to rest by themselves, with poppers waiting only on an empty queue and pushers only on a full one |
| `SafeQueue.GoingOnUsesUp` | web_server/thread/SafeQueue.hpp:24-47 | every step that is neither a new call nor a spurious wakeup uses up work |
| `WorkThreads.HandledInOrder` | web_server/thread/WorkThread.hpp:46-63 | for every interleaving: handled is the first so-many tasks before the first terminate, in order; all of them once stopped |
| `WorkThreads.QueueRuns` | web_server/thread/WorkThread.hpp:78-82 | every run of the worker and its posters is one of the queue, so each task posted goes in once |
| `WorkThreads.StopsWhenTold` | web_server/thread/WorkThread.hpp:40-63 | at rest the worker has stopped iff a terminate task was enqueued, otherwise it has handled everything |
| `WorkThreads.WorksToTheEnd` | web_server/thread/WorkThread.hpp:40-63 | from every state of the worker and the posting threads, without new posts, rest is reached, with all tasks before the first terminate handled, or all there are |
| `WorkThreads.SettlingEnds` | web_server/thread/WorkThread.hpp:46-63 | without new posts and spurious wakeups every schedule of worker and posters is finite, bounded by the work left |
| `WorkThreads.SettlingUsesUp` | web_server/thread/WorkThread.hpp:46-63 | every pop begun, task dealt with or step in the queue uses up work |
| `WorkThreads.Run` | web_server/thread/WorkThread.hpp:46-63 | the loop watched for any number of turns, with or without a terminate task among them: it has handled exactly the tasks before the first one, in order, and has stopped exactly if there was one |
| `Adpcm.LockstepPacked` | web_server/audio/Adpcm.cpp:96-303 | for every sample run, odd lengths included, and every start state, decoding the packed codes gives the coder's predictions and final state |
| `Adpcm.Tracks` | web_server/audio/Adpcm.cpp:133-190 | within reach the prediction lands within step/8 + 2 of the sample; beyond, the error strictly shrinks and keeps its sign; clamping spoils neither |
| `Adpcm.OverloadEnds` | web_server/audio/Adpcm.cpp:123-203 | on constant input overload lasts at most eleven consecutive samples from any state |
| `Adpcm.AdpcmCoder` | web_server/audio/Adpcm.cpp:96-211 | the loop outputs exactly the packed codes of the recursive coder, each the one `Adpcm.CodeMeans` singles out, and ends in its state; other bytes keep their value |
| `Adpcm.MagnitudeIsGreatest` | web_server/audio/Adpcm.cpp:148-169 | the magnitude is the greatest of eight whose quarter steps are at most the distance |
| `Adpcm.CodeMeans` | web_server/audio/Adpcm.cpp:133-184 | the code of a sample: high bit iff the sample lies below the prediction, magnitude the greatest within the distance |
| `Adpcm.ApplyMeans` | web_server/audio/Adpcm.cpp:252-288 | a code moves the prediction by its quarter steps and half of one, and the index by -1, 2, 4, 6 or 8, both clamped |
| `Adpcm.CodedEach` | web_server/audio/Adpcm.cpp:123-203 | over a whole run each code is that of its sample in the state left by the samples before it |
| `Adpcm.PackMeans` | web_server/audio/Adpcm.cpp:193-207 | the earlier code of a byte is its high half; an odd last one leaves the low half 0 |
| `Adpcm.AdpcmDecoder` | web_server/audio/Adpcm.cpp:213-303 | the loop outputs exactly the samples of the recursive decoder and ends in its state; other samples keep their value |
| `Adpcm.CoderStep` | web_server/audio/Adpcm.cpp:133-191 | one pass of the coder's loop body is one code chosen and applied |
| `Adpcm.DecoderStep` | web_server/audio/Adpcm.cpp:252-288 | one pass of the decoder's loop body is the same application of the code |
| `Adpcm.Quantize` | web_server/audio/Adpcm.cpp:148-169 | divide and clamp yields the magnitude, by `Adpcm.MagnitudeIsGreatest` the greatest within the distance, and the change that code stands for |
| `Adpcm.StandardSteps` | web_server/audio/Adpcm.cpp:85-94 | the repository's step table has the properties the theorems ask of a table |
| `Adpcm.IndexTableByRule` | web_server/audio/Adpcm.cpp:66-83 | the index table follows the rule used here |
| `DeviceId.ParseOfPrint` | jt1078/jt1078_server/Jt1078Util.cpp:30-36 | parse(print(id)) = id for every id of fourteen digits |
| `DeviceId.PrintOfParse` | jt1078/jt1078_server/Jt1078Util.cpp:16-19 | print(parse(s)) = s for every canonical s |
| `DeviceId.RewrittenUnlessCanonical` | jt1078/jt1078_server/Jt1078Util.cpp:30-36 | print(parse(s)) = s if and only if s is fourteen lower-case hex digits |
| `DeviceId.ValueOfPrintDigits` | jt1078/jt1078_server/Jt1078Util.cpp:30-36 | reading back what is printed gives the id, for any number of digits |
| `DeviceId.ParseInjective` | jt1078/jt1078_server/Jt1078Util.cpp:16-19 | different canonical strings are different devices |
| `DeviceId.DeviceIdInjective` | jt1078/jt1078_server/Jt1078Util.cpp:3-24 | SIM number and channel determine the id and are determined by it |
| `DeviceId.SimThenChannel` | jt1078/jt1078_server/Jt1078Util.cpp:3-15 | the fourteen characters: two lower-case digits for each byte of the SIM number in turn, then two for the channel |
| `DeviceId.IdOfCar` | jt1078/jt1078_server/Jt1078Util.cpp:21-24 | as a number it is the SIM number and the channel in network byte order |
| `DeviceId.ParseMeans` | jt1078/jt1078_server/Jt1078Util.cpp:16-19 | everything strtoull reads to the base 16: blanks, sign, prefix, digits and whatever follows; too wide gives the largest value, a minus sign negates in the type |
| `DeviceId.ValueMeans` | jt1078/jt1078_server/Jt1078Util.cpp:16-19 | each digit more multiplies by sixteen and adds its value |
| `DeviceId.DigitsListed` | jt1078/jt1078_server/Jt1078Util.cpp:30-36 | the sixteen digits printed, and their values read, capital letters as well |
| `DeviceId.FitsUnlessNegative` | jt1078/jt1078_server/Jt1078Util.cpp:16-19 | of strings no longer than an id, exactly the numbers other than zero behind a minus sign make ids too wide to print |
| `DeviceId.GenerateDeviceIdStrByDeviceId` | jt1078/jt1078_server/Jt1078Util.cpp:30-36 | the result begins with the fourteen leading digits and a terminator; the last write leaves the sixteen bytes if and only if the id has sixteen digits |
| `DeviceId.ParseUpToNul` | jt1078/jt1078_server/Jt1078Util.cpp:16-29 | nothing behind a terminator changes the id that is read |
| `DeviceId.CheckDeviceIdStrFmt` | jt1078/jt1078_server/Jt1078Util.cpp:38-52 | true iff fourteen decimal digits |
| `TopicModel.NoticesAlternate` | new_web_server/CarWebSocketServer.cpp:86-138 | over all opens and closes, whatever the ids: per device notices strictly alternate, ending in subscribe iff the topic exists, if and only if no topic was ever emptied whose id cannot be printed and is this device's or prints as it |
| `TopicModel.MembersAreAskers` | new_web_server/CarWebSocketServer.cpp:86-138 | over all opens and closes, whatever the ids: a topic exists while some connection asked for its device, and its members are exactly those connections |
| `TopicModel.MembersOpened` | new_web_server/CarWebSocketServer.cpp:29-138 | over all opens and closes a connection is in a topic if and only if its last event was to open "/live/" and fourteen characters that name the device, whoever had a topic before |
| `TopicModel.OpenSays` | new_web_server/CarWebSocketServer.cpp:86-121 | a live uri whose device has no topic is announced by the very string asked for; no other opening says anything |
| `TopicModel.CloseSays` | new_web_server/CarWebSocketServer.cpp:123-138 | exactly the topics nobody else is in are removed and told by their printed ids, the least first |
| `TopicModel.OrdinaryIsClean` | new_web_server/CarWebSocketServer.cpp:40-67 | with ids that can be printed no notice about any device is ever out of order |
| `TopicModel.OneVisit` | new_web_server/CarWebSocketServer.cpp:46-67 | of the ids accepted, exactly the numbers other than zero behind a minus sign put the notices out of order, and one open and close is enough |
| `TopicModel.MinusOne` | new_web_server/CarWebSocketServer.cpp:46-67 | the uri /live/-0000000000001 is accepted and does it |
| `TopicModel.StrangerLeaves` | new_web_server/CarWebSocketServer.cpp:123-138 | closing a connection that never subscribed changes nothing and notifies nobody |
| `TopicModel.AddKeeps` | new_web_server/CarWebSocketServer.cpp:86-121 | opening with any id keeps topics and connection table in agreement |
| `TopicModel.RemoveKeeps` | new_web_server/CarWebSocketServer.cpp:123-138 | closing keeps topics and connection table in agreement |
| `TopicModel.RemoveTells` | new_web_server/CarWebSocketServer.cpp:123-138 | closing keeps the notices about a device in order unless a farewell is mistold, and once out of order they stay so |
| `CarWebSocketServers.CarWebSocketServer.OnOpen` | new_web_server/CarWebSocketServer.cpp:29-67 | only a live uri with a fourteen-character id subscribes |
| `CarWebSocketServers.CarWebSocketServer.AddHdlAndSubscribeCarDeviceId` | new_web_server/CarWebSocketServer.cpp:86-121 | running state becomes that of the model |
| `CarWebSocketServers.CarWebSocketServer.RemoveHdlAndUnSubscribeCarDeviceId` | new_web_server/CarWebSocketServer.cpp:123-138 | running state becomes that of the model, notices in topic order |
| `CarWebSocketServers.CarTopicManager.GetEmptyTopicList` | new_web_server/CarTopicManager.h:109-120 | exactly the empty topics, in ascending order |
| `CarWebSocketServers.CarTopicManager.RemoveSubscriber` | new_web_server/CarTopicManager.h:100-106 | the connection leaves every topic, no topic is removed |
| `SrsModel.WatchedIsHeld` | web_server/http/HttpSrsOnSessionHandler.cpp:160-188 | over every run a stream with a registered browser is in the device set, and no stream is registered without one |
| `SrsModel.OthersKeepWatching` | web_server/http/HttpSrsOnSessionHandler.cpp:160-174 | one browser's stop never stops a stream another is watching |
| `SrsModel.StartsAlternate` | web_server/http/WebServer.cpp:43-90 | two tasks starting streams of the same device always have one stopping it in between |
| `SrsModel.BrowsersPlay` | web_server/http/HttpSrsOnSessionHandler.cpp:101-188 | over every run the browsers of a stream are exactly those whose last proper callback about it was on_play |
| `SrsModel.StopSays` | web_server/http/HttpSrsOnSessionHandler.cpp:160-174 | the stop of the last browser posts one task to stop the stream and gives the device up; any other stop does neither |
| `SrsModel.PlaySays` | web_server/http/HttpSrsOnSessionHandler.cpp:176-188 | the first browser of a stream whose device is not held posts one task to start it and takes the device; any other does neither |
| `SrsModel.WebPlaySays` | web_server/http/WebServer.cpp:43-66 | so does the page's own request, for fourteen decimal digits |
| `SrsModel.StopKeeps` | web_server/http/HttpSrsOnSessionHandler.cpp:160-174 | a stop keeps the invariant; needs distinct streams to be distinct devices |
| `SrsModel.PlayKeeps` | web_server/http/HttpSrsOnSessionHandler.cpp:176-188 | a play keeps the invariant and leaves its stream in the device set |
| `SrsSessions.HttpSrsOnSessionHandler.SessionPlay` | web_server/http/HttpSrsOnSessionHandler.cpp:176-188 | running state becomes that of the model |
| `SrsSessions.HttpSrsOnSessionHandler.SessionStop` | web_server/http/HttpSrsOnSessionHandler.cpp:160-174 | running state becomes that of the model, entries made by asking for a size included |
| `SrsSessions.HttpSrsOnSessionHandler.HandlerJsonData` | web_server/http/HttpSrsOnSessionHandler.cpp:101-158 | a callback failing a check does nothing; success iff every check passes |
| `SrsSessions.WebServer.NotifyStart` | web_server/http/WebServer.cpp:43-66 | a known device is passed over; otherwise set, task, and a request of type 0x20002 only while connected |
| `SrsSessions.WebServer.NotifyStop` | web_server/http/WebServer.cpp:72-90 | set, task, and a request of type 0x20003 only while connected |
| `SrsSessions.HttpSessionStat.EmptyClientId` | web_server/http/HttpSrsOnSessionHandler.h:17-24 | asking makes an entry and changes no set of browsers |
| `SrsSessions.HttpWebOnPlayHandler.HandlerJsonData` | web_server/http/HttpWebOnPlayHandler.cpp:54-76 | only fourteen decimal digits start a stream |
| `Buffers.Buffer.ReadInt16` | core/buffer/Buffer.cpp:79-82 | the big-endian value of the next two bytes, which are consumed |
| `Buffers.Buffer.ReadInt32` | core/buffer/Buffer.cpp:83-86 | the big-endian value of the next four bytes, which are consumed |
| `Buffers.Buffer.ReadInt64` | core/buffer/Buffer.cpp:87-90 | the big-endian value of the next eight bytes, which are consumed |
| `Buffers.Buffer.ReadBuffer` | core/buffer/Buffer.cpp:91-96 | the next bytes as they lie, which are consumed |
| `Buffers.Buffer.Reserve` | core/buffer/Buffer.h:34-34 | room changes, contents do not |
| `PcModel.NewViewerKeeps` | pc_server/PcServer.cpp:64-80 | a new session keeps the invariant |
| `PcModel.HeartbeatKeeps` | pc_server/PcServer.cpp:166-174 | a heartbeat changes no subscription |
| `PcModel.LinkDownKeeps` | pc_server/PcServer.cpp:151-157 | losing the connection keeps the tables in agreement |
| `PcModel.ViewerPacketExtends` | pc_server/PcServer.cpp:93-104 | requests are only ever added behind those already sent |
| `PcModel.WatchedIsRecorded` | pc_server/PcPublisher.cpp:84-101 | every watched device is recorded by a live viewer |
| `Protocol.ViewerSideKeeps` | pc_server/PcServer.cpp:82-110 | what viewers do keeps the joint invariant and never disturbs the requests already taken in |
| `Protocol.PeerKeeps` | jt1078/forward_server/ForwardServer.cpp:43-81 | what other peers and published frames do keeps the joint invariant |
| `Relay.HeardIsUpstream` | pc_server/PcServer.cpp:134-150 | a viewer hears nothing that did not come from upstream |
| `Relay.DeviceOf` | pc_server/PcServer.cpp:143-145 | the device id is read as the first eight payload bytes, whatever lies behind |
| `Subscribers.FrameFits` | jt1078/forward_server/Subscriber.cpp:122-138 | a frame is well formed, of type 0x10004, at most 988 data bytes, numbered by its position |
| `Subscribers.EmittedIsLegal` | jt1078/jt1078_server/CarSession.cpp:45-77 | any packet the decoder takes off any stream, under the id of its car, is one that the results about framing are about |
| `Adpcm.PutCode` | web_server/audio/Adpcm.cpp:193-202 | a code is kept in the high half or joins the one kept and goes out |
| `Adpcm.PutLast` | web_server/audio/Adpcm.cpp:205-207 | an odd last code goes out alone; the output is then the packing of all codes |
| `Adpcm.NextCode` | web_server/audio/Adpcm.cpp:240-250 | each code is the right half of the right byte, read as a signed char |
| `Adpcm.Update` | web_server/audio/Adpcm.cpp:171-190 | predictor and index after clamping |
| `SrsModel.StartKeeps` | web_server/http/WebServer.cpp:43-66 | a start keeps the invariant; a stream already held gets no second task |
| `CarWebSocketServers.CarTopicManager.RemoveTopics` | new_web_server/CarTopicManager.h:91-97 | exactly the listed topics are gone |

## Left out

- libevent, asio and websocketpp, listeners, timers, Redis, MySQL, logging, ini files and main
  programs: they appear only as events that may happen at any time.
- RTMP, FFmpeg, G.711 and G.726: foreign code, or finite tables.
- web_server/audio/CCodec.cpp: it writes the state after a frame into the frame's header and
  starts decoding from there, so `Adpcm.LockstepPacked` does not carry over to it.
- core/pipe, core/server and jt1078/pub_sub: easier versions of what is modelled here.
- CarTcpClient and TcpConnection: lifetimes of asynchronous writes.
- Class inheritance: `TcpSession`, `PcSession` and `Subscriber` are one class with both ways of
  sending; `Channel` objects are map entries of the server that owns them.
- Buffer.Push: the real growth of a string may exceed what is asked for; the model takes exactly that.
- PcServers.PcServer.OnClientMessage: the eight bytes of the device id are read from the packet
  buffer, so for shorter payloads the bytes behind the payload are an argument.
- PcPublishers.PcPublisher.Publish: members are visited in some order, not in that of their numbers; the
  outcome does not depend on it.
- ForwardServers.ForwardServer.SendPayload: members are visited in some order, as above.
- Protocol.Agreement: after the forwarding server finds the session dead or unwritable, membership may lag
  behind the requests until the next connection (`Protocol.NothingLeaks` holds there too); a request that
  arrives on a replaced session counts as another peer's.
- ForwardModel.CommandsAlternate: told by device number. Of an id of more than fourteen digits the car is told
  a text that it shares with another id.
- IpcDecoder.Decoder.Decode: once a write has left the packet buffer nothing is promised about packets.
- WorkThreads.Run: it is watched for a number of turns, over what popping yields; that popping may block, and
  what other threads do meanwhile, is in `WorkThreads.HandledInOrder` and `WorkThreads.WorksToTheEnd`.
- DeviceId.GenerateDeviceIdStrByDeviceId: nothing is promised about what the write behind the array destroys.
- The memory model of the queue: each critical section and each notification is one step.
