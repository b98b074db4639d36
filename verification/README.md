# The Wayland wire-protocol runtime, modelled and proved

Wayland clients and servers talk over a Unix stream socket. This project models the library that
carries that talk, and proves what its design relies on:

* **Object ids** (`ObjectMap`, `TaggedMap`, `IdLifecycle`, `IdSafety`, `IdSteps`, `Endpoints`). Ids are handed
  out by the client, used by both ends, and reused once the server has sent `delete_id`. Client,
  server and the two byte streams between them are one step system; its messages carry, as history,
  the incarnation of the object their sender meant. `IdSafety.IdReuseIsSafe` is the main result;
  `IdSteps` says what each step does, by what the two maps find before and after.
  `TaggedMap` is the map both ends keep, down to the tagged words and the free list in them, and
  `Endpoints` is each end's handling of ids on that map.
* **The connection** (`Wire`, `RingBuffer`, `Transport`, `Asking`, `DescriptorRing`, `Connection`,
  `Framing`). Rings with 32-bit counters, `sendmsg` and `recvmsg` that take what they like, and file
  descriptors that travel beside the bytes. `Transport.NothingLostNothingLate` is the main result, with
  `Asking.SentIsNotForgotten` for what must go out; `Connection` refines the transport's operations
  on rings. Descriptors can come long before the bytes that need
  them, so the receiver's ring of 1024 can overflow: `DescriptorRing.OverflowIff` and
  `DescriptorRing.PromptOverflowIff` say for which messages, if and only if.
* **The codec** (`Signature`, `Codec`, `WireFormat`, `Demarshal`). Closures to words and back, driven by
  signature strings; `Codec.RoundTrip`, and `WireFormat.EncodingIsLayout` for the bytes themselves.
  `EndToEnd.ClosuresComeBack` puts codec, transport and framing together.
* **Threads and lifetimes in the client** (`Readers`, `ProxyRefs`). Who reads for whom and who wakes
  whom; when a proxy is freed, with the heap explicit so that no access is to freed memory.
* **The scanner's back end** (`Scanner`, `Letters`), whose signatures and types table the runtime parses
  and indexes.
* **Supporting parts**: `IntrusiveList`, `EventLoop`, `CallbackTurns`, `Registry`, `Shm`, `FixedPoint`, `Xcursor`.

Where the source changes state in place, a class or a method with loops does so here, and is proved to
refine a function or to keep an invariant; theorems about whole runs are about those functions.
Run `dafny verify dfyconfig.toml` to check everything.

Inputs stand for the world outside: how many bytes the kernel takes at each `sendmsg` (`grants`), what
each `recvmsg` brings (`arrivals`), whether `mmap` succeeds (`mapped`), what callbacks do
(`callbacks`), and the addresses the allocator picks.

Where the code and its documentation disagree the code is followed:

* the comment at src/wayland-client.c:204-212 says no thread can sleep while another dispatches; one
  can (`Readers.SleepDuringDispatch`, `Readers.ErrorFindsSleeper`), and what holds is `Readers.NoLostWakeUp`;
* Protocol.xml:164-170 says the server uses ids below 0x10000; the code starts them at 0xff000000, as
  lines 290-292 of the same document say;
* a NULL array is not told from an empty one on the wire, and a nullable new id of 0 cannot be
  received by a client (`Codec.RoundTrip`, `Codec.NullNewId`);
* `wl_closure_lookup_objects` indexes the types table by place in the signature, which is past the
  argument's own entry after an untyped new id (`Scanner.RuntimeStaysInTable`);
* a null mark on an untyped new id lands on the interface name before it (`Scanner.SignatureRoundTrip`).

## Model

| member | source | states |
|---|---|---|
| IdSafety.IdReuseIsSafe | doc/publican/sources/Protocol.xml:286-300 | For every run of client, server and both byte streams, for ids the client allocates: the server has refused no new id, new ids on their way are in the client range and none skips an id, a delete_id to be dispatched finds a proxy or zombie, every object an event in flight names is on the client that same incarnation or a zombie, every object the next request uses is on the server that same incarnation or gone, and an id free for reuse is mentioned nowhere |
| IdSafety.InvStep | src/wayland-client.c:617-654 | Every step of either end keeps the balance: the client holds an id exactly when one of request stream, server, event stream or display queue holds its counterpart, exactly once |
| IdSafety.InvRun | doc/publican/sources/Protocol.xml:286-300 | The balance holds after any run |
| IdSafety.NewIdsInOrder | doc/publican/sources/Protocol.xml:295-299 | The id N is not on its way before N-1 has been used or is on its way before it; all are between 1 and 0xfeffffff |
| IdSafety.CreateProxyKeeps | src/wayland-client.c:329-349 | Handing out an id keeps the invariant: the id was held by nobody, is next in line or reused, and goes to a new incarnation |
| IdSafety.SendRequestKeeps | src/wayland-client.c:617-654 | A request with any number of new ids and live objects keeps the invariant; when the server comes to it, what it uses is what the client meant |
| IdSafety.DestroyKeeps | src/wayland-client.c:408-425 | Destroying a proxy keeps the invariant: a zombie stands in until the id is deleted, or the id is free because it was deleted already |
| IdSafety.ReadEventKeeps | src/wayland-client.c:1178-1231 | Reading an event moves a delete_id to the display queue and loses no token |
| IdSafety.QueuedDeleteIsHeld | src/wayland-client.c:802-819 | The id of a delete_id about to be dispatched is still held by the client, is not the display's, stands nowhere on the server and is queued only once |
| IdSafety.DispatchDeleteIdKeeps | src/wayland-client.c:802-819 | Handling delete_id spends the token on both ends at once |
| IdSafety.ReserveKeeps | src/connection.c:725-745 | The first new id on its way can always be reserved, and reserving it keeps the invariant |
| IdSafety.ReserveAllKeeps | src/connection.c:725-745 | All new ids of a request are reserved without a refusal |
| IdSafety.ReceiveRequestKeeps | src/wayland-server.c:234-356 | Receiving a request keeps the invariant whether it is accepted or refused for a missing object |
| IdSafety.CreateKeeps | src/wayland-server.c:1387-1421 | Creating the resource of a reserved id keeps the invariant |
| IdSafety.DestroyOnServerKeeps | src/wayland-server.c:578-595 | Destroying a resource turns the server's token into the delete_id that follows every event naming the object |
| IdSafety.PostEventKeeps | src/wayland-server.c:127-148 | Posting an event that names live resources keeps the invariant |
| IdSafety.EventsReachWhatWasMeant | src/connection.c:814-861 | Every id named by any event in flight is held by the client, as the incarnation the server meant or a zombie |
| IdSafety.RequestsReachWhatWasMeant | src/wayland-server.c:234-356 | The target and arguments of the next request are on the server the incarnation the client meant, or already destroyed |
| IdSafety.VacantIdsUnmentioned | src/wayland-util.c:181-210 | An id on the client's free list is live nowhere and named in no message |
| IdSteps.RequestSent | src/wayland-client.c:617-654 | A request goes out with its target and objects as the client's incarnations; each new id found nothing before and finds the new proxy after, the first is the map's next id, and no other lookup changes |
| IdSteps.ProxyDestroyed | src/wayland-client.c:408-425 | A proxy destroyed leaves a zombie, or nothing if its id was deleted before, and then the id is the next handed out; no other lookup changes |
| IdSteps.DeleteIdDispatched | src/wayland-client.c:802-819 | A delete_id dispatched frees a zombie's id to be the next handed out, and flags a live proxy; no other lookup changes |
| IdSteps.EventRead | src/wayland-client.c:1178-1231 | An event read goes behind the display's queue exactly if it is a delete_id |
| IdSteps.RequestJudged | src/wayland-server.c:289-330 | A request is accepted exactly if its target is there, the method is offered and all its objects are there; each refusal has exactly its own cause, and none is for a new id |
| IdSteps.RequestTaken | src/wayland-server.c:234-356 | The new ids of an accepted request await their resources as the incarnations the client meant, and receiving changes no lookup |
| IdSteps.ResourceCreated | src/wayland-server.c:1387-1421 | After creation the resource is found under its id, live, as the incarnation the client meant; no other lookup changes |
| IdSteps.ResourceDestroyed | src/wayland-server.c:578-595 | After destruction the id finds nothing, no other lookup changes, and its delete_id is behind all events sent |
| IdSteps.EventPosted | src/wayland-server.c:127-148 | An event names its target and objects as the incarnations the server finds |
| IdSteps.ObjectComesAndGoes | doc/publican/sources/Protocol.xml:286-300 | From any quiet state there is a run in which an object is created and destroyed on both ends, and its id is again the next handed out |
| IdSteps.IdsAreReused | doc/publican/sources/Protocol.xml:286-300 | So a run from the start ends in a second object being sent for under the id of the first, as another incarnation |
| ObjectMap.InsertNewProperties | src/wayland-util.c:181-210 | The id handed out was in use by nobody and is at most the number ever used; it now finds the data and flag given, and no other lookup changes |
| ObjectMap.InsertAtProperties | src/wayland-util.c:213-238 | Storing at an id changes that lookup and no other, and leaves the free stack alone |
| ObjectMap.ReserveNewProperties | src/wayland-util.c:241-277 | Reserving changes no lookup and makes the id one that can be stored at |
| ObjectMap.ReservedOnce | src/wayland-util.c:241-277 | An id may be reserved only if it is the peer's, finds nothing and skips none; once something is stored there it may not be reserved again, and when that is gone it may |
| ObjectMap.RemoveProperties | src/wayland-util.c:280-301 | A removed id finds nothing, no other lookup changes, and it is the next id handed out |
| ObjectMap.RemoveUndoesReuse | src/wayland-util.c:280-301 | Removing the id just taken off the free list restores the whole map |
| TaggedMap.TaggingLossless | src/wayland-util.c:157-165 | Pointer and flag survive being packed into one word, and the word does not look free |
| TaggedMap.FreeLinkLossless | src/wayland-util.c:280-301 | A 32-bit free link looks free, and names its index exactly when the index is below 2^31 |
| TaggedMap.FreedWord | src/wayland-util.c:280-301 | Every word on the free chain is tagged free or is the word 0, which reads as a live NULL |
| TaggedMap.PushFree | src/wayland-util.c:280-301 | Pushing a live index keeps the chain in range, acyclic and free of duplicates, and vacates just that slot |
| TaggedMap.PopFree | src/wayland-util.c:181-210 | Popping the chain gives its first index, keeps the rest a chain, and fills just that slot |
| TaggedMap.StoredValid | src/wayland-util.c:157-165 | Words and chain always represent a valid map: the free stack is in range, duplicate-free, and names exactly the vacant slots |
| TaggedMap.StoredLookup | src/wayland-util.c:304-347 | Reading a word's data and flag, with the test for a free tag, is the map's lookup, also for the untagged last free word |
| TaggedMap.Map.InsertNew | src/wayland-util.c:181-210 | The tagged words refine inserting under a fresh id, last freed first |
| TaggedMap.Map.InsertAt | src/wayland-util.c:213-238 | The tagged words refine storing at an id, which fails exactly when it would leave a hole |
| TaggedMap.Map.ReserveNew | src/wayland-util.c:241-277 | Succeeds exactly for the other side's ids that are next in line or hold NULL |
| TaggedMap.Map.Remove | src/wayland-util.c:280-301 | The tagged words refine removing an own-side id; a peer's id is left alone |
| TaggedMap.Map.Lookup | src/wayland-util.c:304-324 | Finds what the abstract map holds, NULL for anything vacant or out of range |
| TaggedMap.Map.LookupFlags | src/wayland-util.c:327-347 | Finds the flag the abstract map holds |
| Endpoints.ClientDisplay.constructor | src/wayland-client.c:891-959 | A connected client is the start state of the lifecycle: id 0 taken by NULL, id 1 the display |
| Endpoints.ClientDisplay.ProxyCreate | src/wayland-client.c:329-349 | On the tagged map, refines handing out an id to a new incarnation |
| Endpoints.ClientDisplay.ProxyDestroy | src/wayland-client.c:408-425 | On the tagged map, refines destroying a proxy: zombie, or removal if ID_DELETED is set |
| Endpoints.ClientDisplay.HandleDelete | src/wayland-client.c:802-819 | On the tagged map, refines handling delete_id: flag a live proxy, free a zombie's id |
| Endpoints.ServerClient.constructor | src/wayland-server.c:414-461 | A fresh server-side client is the start state of the lifecycle |
| Endpoints.ServerClient.Reserve | src/connection.c:725-745 | On the tagged map, refines reserving a request's new ids in order up to the first refused |
| Endpoints.ServerClient.HandleRequest | src/wayland-server.c:234-356 | Refines receiving a request: the same refusal for the same cause (target, method, new id, object), and the same state after it, with the new ids reserved by then |
| Endpoints.ServerClient.ResourceCreate | src/wayland-server.c:1387-1421 | On the tagged map, refines creating a resource under its reserved id |
| Endpoints.ServerClient.ResourceDestroy | src/wayland-server.c:578-595 | On the tagged map, refines destroying a resource, and yields the delete_id event |
| RingBuffer.SlotOfPlus | src/connection.c:48-64 | Counters that wrap at 2^32 name the same slots as counters that never wrap |
| RingBuffer.MaskedGap | src/connection.c:92-138 | What the masked counters say about the fill: equal ones mean empty or full, nothing between |
| RingBuffer.PutQueued | src/connection.c:66-90 | Writing behind the head appends to the queue and disturbs nothing in it |
| RingBuffer.RetireQueued | src/connection.c:212-216 | Advancing the tail drops exactly that many bytes off the front |
| RingBuffer.GatheredIsPick | src/connection.c:116-138 | What a vectored write sends is the storage at the vector's indices, in order |
| RingBuffer.Buffer.Size | src/connection.c:155-159 | The 32-bit difference of the counters is the number of bytes queued, at most 4096, also across the wrap |
| RingBuffer.Buffer.Put | src/connection.c:66-90 | Appends the bytes to the queue, or fails changing nothing exactly when they exceed the ring |
| RingBuffer.Buffer.Copy | src/connection.c:140-153 | Yields the oldest bytes in order, with the storage wrapping or not |
| RingBuffer.Buffer.Consume | src/connection.c:212-216 | Takes the oldest bytes off, also when the tail wraps at 2^32 |
| RingBuffer.Buffer.PutIov | src/connection.c:92-114 | The vector covers exactly the free slots in filling order, and all slots when none is free |
| RingBuffer.Buffer.GetIov | src/connection.c:116-138 | The vector gathers exactly the queued bytes in order, and covers all slots when there are none |
| RingBuffer.Buffer.Fill | src/connection.c:324-360 | Bytes the kernel scatters through the free slots lie ready behind the head, and the queue is undisturbed |
| RingBuffer.Buffer.Produce | src/connection.c:324-360 | Advancing the head appends just the bytes that were filled in |
| Transport.NothingLostNothingLate | src/connection.c:274-393 | Over every interleaving of sends, partial flushes, chunked reads and decodes, up to the first failed send or read that overflows the fd ring: bytes and fds received, on the wire and pending are exactly those of the messages outstanding, in order; at most 28 fds pend; and a message's fds are at the front of those received as soon as its first byte is in |
| Transport.FlushFlows | src/connection.c:274-315 | However many bytes each sendmsg takes, flushing conserves bytes and fds, keeps fds no later than their bytes, and empties the ring if it succeeds |
| Transport.PutFdFlows | src/connection.c:414-424 | Putting one more fd of a message never leaves more than 28 pending, for twenty arguments cannot fill the ring with nothing to send |
| Transport.SendFlows | src/connection.c:1129-1182 | Sending a whole message keeps conservation, timeliness, and "nothing to write means no fds pending" |
| Transport.SentGoesOut | src/connection.c:1129-1154 | After a send and a flush that succeed, nothing is pending and all bytes and fds sent so far are received or on the wire |
| Asking.SentIsNotForgotten | src/connection.c:382-393 | Once a message has been sent with the flag, whatever is sent or queued later: either a flush is still asked for, or only what came after is pending; a flush that succeeds while one is asked for leaves nothing pending and all bytes and fds received or on the wire |
| Asking.SendNeedsNoFlush | src/connection.c:362-393 | While there is room a message goes behind what is pending, nothing is sent, and a flush is asked for if it was before or the message asks |
| Asking.FlushSendsWhatIsGranted | src/connection.c:274-315 | A flush asked for puts on the wire exactly as much as the kernel grants and succeeds exactly if that is all; one not asked for changes nothing |
| Asking.WriteFailsIff | src/connection.c:362-379 | Words are refused exactly if they exceed the ring, or there is no room and the kernel does not take all that is pending |
| Asking.PutFdFailsIff | src/connection.c:414-424 | A descriptor is refused exactly if 28 are pending and the kernel does not take all pending bytes |
| Transport.DecodeKeeps | src/connection.c:622-798 | Decoding takes the message's own bytes and own fds off the front |
| Transport.FdsAreIn | src/connection.c:766-779 | With one byte of a message in, all its fds are in, at the front |
| Transport.DeliverConserves | src/connection.c:324-360 | A read of any size takes that many bytes if there are, and splits bytes and fds without loss |
| Transport.InvStep | src/connection.c:274-393 | Every step of a link keeps conservation, order and timeliness |
| Transport.IdleSendKeepsFdsIffTheyFit | src/connection.c:176-192 | A message sent on an idle connection keeps all its fds exactly when they are at most 28; more are dropped unsent |
| Transport.TimelyPush | src/connection.c:274-315 | A segment that takes all pending fds comes no later than the bytes that need them, and no earlier than while their messages are in the ring |
| DescriptorRing.OverflowIff | src/connection.c:240-271 | Some run of sends, partial flushes, chunked reads and decodes, with no failed send and in messages of at most `most` fds and at least `perFd` bytes for each, ends in a read that loses descriptors, if and only if `most` is 2 or more and `perFd` 8 or less |
| DescriptorRing.PromptOverflowIff | src/wayland-client.c:1283-1336 | The same with a receiver that, as both ends do, decodes all it can before each read: if and only if `most` is 2 or more and `perFd` 4 or less |
| DescriptorRing.ReadsNeverOverflow | src/connection.c:240-271 | No read overflows the 1024-fd ring if 8191 / perFd + most is at most 1024: fds that are in belong, but for `most`, to messages inside the two rings |
| DescriptorRing.ReadsOfTheIdleNeverOverflow | src/connection.c:240-271 | Nor does a read made when nothing whole is in, if 40 + 4094 / perFd + 28 is at most 1024: then they belong, but for two messages, to what was in the sender's ring alone |
| DescriptorRing.OneFdEachNeverOverflows | src/connection.c:240-271 | No read overflows where messages carry at most one fd each, whatever the interleaving |
| DescriptorRing.TwoFdsOverflow | src/connection.c:240-271 | After 1023 messages of 8 bytes and one fd, none decoded, one of 16 bytes and two fds makes a read overflow |
| DescriptorRing.ShortMessagesOverflow | src/connection.c:240-271 | With messages of 8 bytes and any two or more fds a read overflows, after a run with no failed send in which everything wholly in was decoded before each read |
| Connection.Connection.BuildCmsg | src/connection.c:219-238 | The control message holds the first pending fds, at most 28 |
| Connection.Connection.CloseFds | src/connection.c:176-192 | All pending fds leave the ring, however many went out |
| Connection.Connection.SendOnce | src/connection.c:274-315 | One sendmsg refines one segment of the transport, or fails leaving everything as it was; the receiving side is untouched |
| Connection.Connection.Flush | src/connection.c:274-315 | On the rings, refines the transport's flush; yields the bytes sent, or -1 exactly when that fails; the receiving side is untouched |
| Connection.Connection.PutFd | src/connection.c:414-424 | On the rings, refines putting an fd, with the forced flush at 28; the receiving side is untouched |
| Connection.Connection.Write | src/connection.c:362-393 | On the rings, refines writing and queueing, with the forced flush when short of room; the receiving side is untouched |
| Connection.Connection.Send | src/connection.c:961-985 | On the rings, refines sending a message, its fds before its words; the receiving side is untouched |
| Connection.Connection.DecodeCmsg | src/connection.c:240-271 | The fds received are appended to their ring, or none of them when they do not all fit |
| Connection.Connection.Read | src/connection.c:324-360 | On the rings, refines the link's read of as many bytes as came, the overflow of the fd ring included; on a full ring, an error or end of file nothing is received; the sending side is untouched |
| Connection.ReceptionBrings | src/connection.c:324-360 | A read gives -1 on failure, 0 at end of file, and otherwise as many bytes as came, there was room for and the wire held, if the descriptors with them fit one control message |
| Framing.ChunkingIrrelevant | src/wayland-client.c:1312-1320 | However a stream is cut into reads, the same messages come out and the same bytes are left |
| Framing.SplitHonest | src/wayland-client.c:1178-1201 | From any prefix of well-framed messages exactly those wholly in come out, and what is left is shorter than the next message and than 4096 bytes, so reading never gets stuck |
| Framing.SplitConserves | src/wayland-client.c:1178-1201 | Messages cut and bytes left make up what was there |
| Framing.SplitOfMore | src/wayland-client.c:1178-1201 | Bytes that come later do not change the messages already cut |
| Framing.QueueEvents | src/wayland-client.c:1312-1320 | The client's loop, counting down what remains, takes the ring apart as the specification does |
| Framing.HandleRequests | src/wayland-server.c:263-350 | The server's loop, reading the length back each time, does the same |
| Signature.GetNextArgument | src/connection.c:426-448 | Yields the first argument the signature stands for and a signature for the others; NUL when there is none |
| Signature.ArgCount | src/connection.c:450-468 | Counts the arguments the signature stands for |
| Signature.ParseAppend | src/connection.c:426-448 | A piece that ends in an argument leaves nothing pending for what follows |
| Signature.ParseSkipsDigits | src/connection.c:426-448 | A version in front does not change the arguments |
| Codec.Marshal | src/connection.c:526-607 | Fails exactly on more than twenty arguments or a NULL where none is allowed |
| Codec.BufferSize | src/connection.c:988-1036 | The size computed is exactly 8 bytes of header and what the arguments take on the wire: 4 bytes each, strings and arrays their length word and payload up to the next multiple of 4, descriptors nothing |
| Codec.StoreValue | src/connection.c:1039-1126 | One argument's words encode it, what was before stays, and it overflows exactly when the words do not fit |
| Codec.SerializeArgs | src/connection.c:1039-1126 | All arguments are encoded in order, or the overflow exit is taken exactly when they do not fit |
| Codec.Serialize | src/connection.c:1039-1126 | The buffer encodes the closure, header included; -1 exactly when it is too short |
| Codec.Pack | src/connection.c:1129-1154 | With the size computed, serializing never runs out of room |
| Codec.DecodeEncoded | src/connection.c:658-782 | Whatever is in the padding, arguments come back as sent and use up just the fds sent with them; only a new id the map refuses can go wrong |
| Codec.RoundTrip | doc/publican/sources/Protocol.xml:91-194 | Demarshalling what was serialized gives back sender, low half of the opcode, size and every argument (a NULL array as an empty one), with the new ids reserved |
| WireFormat.EncodingIsLayout | doc/publican/sources/Protocol.xml:91-194 | Words encode the arguments if and only if they are laid out as the protocol says: a string or array is a 4-byte length, the payload and fewer than 4 bytes up to the next multiple of 4, any other argument 4 bytes, a descriptor none |
| WireFormat.LayoutSize | src/connection.c:988-1036 | Any bytes so laid out are as many as the sizes of the arguments add up to, with no word of how the serializer counts |
| WireFormat.MessageLayout | doc/publican/sources/Protocol.xml:91-120 | A message is its sender's id, the byte size in the upper and the opcode in the lower half of a word, and its arguments laid out, if and only if it encodes the closure |
| WireFormat.LayoutDecodes | src/connection.c:622-798 | Any bytes of the layout, whatever the padding, decode to the arguments they lay out |
| WireFormat.ArrivedMeaning | src/connection.c:746-764 | Every argument arrives as it was sent, but for a NULL array, which arrives empty |
| WireFormat.ReservedMeaning | src/connection.c:725-745 | The new ids of a message are taken exactly if each is the other side's, finds nothing and skips no id, and no lookup changes |
| WireFormat.TakingFails | src/connection.c:658-782 | An argument cannot be taken exactly if it is not there in whole, a string lacks its NUL, or it is NULL and may not be; each error has exactly its own cause |
| WireFormat.TakenIsThere | src/connection.c:658-782 | What is taken for an argument stands there in the layout of that argument |
| WireFormat.DecodedIsThere | src/connection.c:622-798 | Decoding makes nothing up: on success there is one argument of the right type for each entry of the signature, standing there in order; the fds used were the first pending, and the new ids are reserved |
| WireFormat.DecodingFailsFirst | src/connection.c:658-782 | An argument that cannot be taken, a descriptor that is not there or an id the map will not take gives its own error at once, whatever follows, and leaves the map as it is |
| WireFormat.TooManyIff | src/connection.c:622-645 | A message is refused for its number of arguments exactly beyond twenty, with nothing taken |
| Codec.HeaderKeepsSizeIffItFits | src/connection.c:1117-1121 | The header's upper half holds the size exactly when it is below 2^16; the lower half is the opcode's low 16 bits |
| Codec.NullNewId | src/connection.c:725-745 | A nullable new id of 0 is taken by a server's map and always refused by a client's |
| Demarshal.TakeFd | src/connection.c:766-779 | Takes the first fd off its ring and leaves the others |
| Demarshal.TakeArgument | src/connection.c:658-782 | One turn of the loop, on the fd ring and the tagged map, refines reading one argument, with the same error for the same cause |
| Demarshal.TakeArguments | src/connection.c:658-782 | The loop refines reading all arguments, including what it leaves behind on an error |
| Demarshal.Demarshal | src/connection.c:622-798 | Consumes the message from the ring whatever becomes of it, and yields the closure or error the specification gives, with the map and fds it leaves |
| EndToEnd.ClosuresComeBack | src/connection.c:1129-1182 | After any run of the link up to the first failed send or fd overflow, cutting what has come in gives packets that decode, in order, each with its own fds and against any map, to the first of the closures outstanding |
| EndToEnd.CarriedComesBack | src/connection.c:622-798 | A message as sent, with its fds at the front of those received, decodes to its closure and leaves the other fds |
| EndToEnd.FirstCut | src/wayland-client.c:1178-1201 | The first message outstanding is cut off whole once all its bytes are in, and nothing is cut before |
| Readers.NoLostWakeUp | src/wayland-client.c:1382-1401 | After any run the reader count is the number of prepared threads, a thread not woken since it slept has one of them to wait for, and when all are done every sleeper may return unless the wake-ups since are a multiple of 2^32 |
| Readers.QueuesGrowOnlyUnwatched | src/wayland-client.c:1283-1336 | Queues gain events only when no thread is left prepared, the read that is made for all wakes all whatever it finds, and an error never clears |
| Readers.SleepDuringDispatch | src/wayland-client.c:204-212 | Contrary to the comment there: after any run, a thread that reads goes to sleep exactly when another is prepared, a third can then dispatch, and an error an event tells of finds the sleeper and leaves it asleep; the prepared thread is what will wake it |
| Readers.SleepersHappen | src/wayland-client.c:1489-1507 | There is a run of three threads that gets there: two prepared, and an event to dispatch in another queue |
| Readers.ErrorFindsSleeper | src/wayland-client.c:168-215 | So from the start there is a run in which a protocol error is recorded during dispatch while a thread sleeps, and does not wake it |
| Readers.InvStep | src/wayland-client.c:1338-1344 | Every step keeps the count and the promise to sleepers, on every path of a read |
| Readers.Display.WakeupThreads | src/wayland-client.c:124-134 | Moves the serial on by one, wrapping at 2^32 |
| Readers.Display.SetFatalError | src/wayland-client.c:144-156 | Records the first error and wakes the sleepers; later ones change nothing |
| Readers.Display.PrepareRead | src/wayland-client.c:1489-1507 | The thread becomes one of the prepared, and is counted, exactly when its queue is empty; count and promise to sleepers are kept |
| Readers.Display.Cancel | src/wayland-client.c:1539-1546 | Refines a cancel: the thread is no longer prepared, and the last one out wakes the sleepers; count and promise to sleepers are kept |
| Readers.Display.Read | src/wayland-client.c:1283-1401 | Refines a read: only the last prepared reads, and queues events; every outcome of that wakes the sleepers, the others go to sleep on the serial they saved, and an earlier error counts as a cancel |
| Readers.Display.TryResume | src/wayland-client.c:1323-1333 | A sleeper goes on exactly when the serial it saved is no longer the current one |
| Readers.Display.DispatchOne | src/wayland-client.c:1234-1281 | Takes one event off a queue for a running thread; count and promise to sleepers are kept |
| Readers.Display.SetProtocolError | src/wayland-client.c:194-214 | With the mutex held, after the test, records the error over any other and wakes nobody; count and promise to sleepers are kept |
| Readers.Display.TestForError | src/wayland-client.c:171-178 | The test without the mutex: goes on to record the error exactly when none is recorded |
| Readers.LaterErrorWinsOnlyByRace | src/wayland-client.c:171-214 | An error recorded before that test stays and one recorded between test and mutex is overwritten |
| Readers.WhatReadsReport | src/wayland-client.c:1283-1336 | A read succeeds exactly when there is no error before and the one reader finds bytes in order or none; one that is not the last to read waits, and the new error recorded is the one that occurred |
| Readers.WhatStepsDo | src/wayland-client.c:1283-1336 | Dispatch takes one event off one queue, the one read made for all adds just what it brought, and no other step touches a queue |
| ProxyRefs.UnrefBalances | src/wayland-client.c:225-253 | Dropping a reference keeps every count equal to its holders, and frees exactly what has none left |
| ProxyRefs.AllRefsUpdate | src/wayland-client.c:1219-1228 | Replacing one queue changes the references all queues hold by just the difference |
| ProxyRefs.SurvivorsChain | src/wayland-client.c:225-253 | Dropping references in several goes frees what dropping them at once would |
| ProxyRefs.Client.CreateProxy | src/wayland-client.c:329-349 | A new proxy has the creator's reference and is found under its id; no other changes |
| ProxyRefs.Client.DestroyProxy | src/wayland-client.c:408-425 | The proxy is freed at once exactly when no queued closure names it, and the map forgets it, for a zombie, or for nothing if its id was deleted or is the server's; no other proxy changes |
| ProxyRefs.Client.HandleDeleteId | src/wayland-client.c:802-819 | Flags the proxy of the id, takes the zombie's id out, or does nothing for an unknown id; the map still finds only proxies allocated and not destroyed |
| ProxyRefs.MakeProxiesOk | src/wayland-client.c:1118-1150 | Making the proxies of an event's new ids disturbs none that was there, and keeps counts and map right |
| ProxyRefs.MadeMeaning | src/wayland-client.c:1118-1150 | The proxies made are exactly those of the nonzero new ids, each at its address with its id, the interface of the message, the target's queue and one reference; each id finds the last made for it, and no other lookup changes |
| ProxyRefs.Client.CreateProxies | src/wayland-client.c:1118-1150 | The loop makes one proxy for each new id that is not 0, in order, on the target's queue |
| ProxyRefs.Client.LookupObjects | src/connection.c:814-861 | Fails exactly on an id that is unknown and not 0 or a proxy of another interface than the message gives; otherwise objects are the proxies of their ids, zombies and 0 are NULL |
| ProxyRefs.ResolvedMeaning | src/connection.c:814-861 | An argument is a proxy exactly when its id is mapped to that proxy, or it is a nonzero new id and the proxy is at its address; it is NULL exactly for plain arguments, 0, zombies and unknown ids, of which lookup refuses exactly unknown nonzero ids and proxies of another interface |
| ProxyRefs.Client.IncreaseArgs | src/wayland-client.c:1153-1175 | Every object argument gains a reference for each time it is named |
| ProxyRefs.Client.QueueEvent | src/wayland-client.c:1178-1231 | Discards the event exactly when the target is unknown or a zombie, refuses it exactly when it cannot be demarshalled or an object is unknown or of the wrong interface, and otherwise queues it on the target's queue with target and arguments looked up and counted; frees or destroys nothing |
| ProxyRefs.Client.DecreaseArgs | src/wayland-client.c:225-253 | The arguments' references go, freeing exactly what nothing holds any more, and arguments destroyed meanwhile become NULL |
| ProxyRefs.Client.DropClosure | src/wayland-client.c:1234-1260 | What a closure held goes: every count still equals its holders, and exactly the proxies nothing holds any more are freed |
| ProxyRefs.Client.DropTarget | src/wayland-client.c:1248-1260 | The target's reference goes; it is freed at zero, which only a destroyed one can reach |
| ProxyRefs.Client.Release | src/wayland-client.c:1234-1281 | Taking the first closure off a queue keeps all counts balanced, touches no freed proxy, and calls the listener exactly if the target is not destroyed |
| ProxyRefs.Client.DispatchEvent | src/wayland-client.c:1234-1281 | A listener runs exactly when the target was not destroyed, on an allocated target, and is handed the queued arguments with exactly the destroyed ones made NULL |
| ProxyRefs.Client.ReleaseQueue | src/wayland-client.c:259-281 | The queue is emptied and exactly the proxies nothing else holds are freed |
| Scanner.SignatureRoundTrip | src/scanner.c:1503-1543 | The runtime reads back version, argument count, and the types and nullability, the last exactly when no untyped new id allows null |
| Scanner.ExpectedMeaning | src/scanner.c:1503-1543 | An untyped new id stands for the name of its interface, its version and the id; any other argument for itself by its own letter, nullable exactly if marked so and of a type that can be |
| Letters.LettersAgree | src/scanner.c:1503-1543 | For the letter printed for a type the runtime takes exactly the values of that type |
| Letters.NullableTypes | src/scanner.c:376-388 | The types that may be marked nullable are exactly those of which there is a NULL value |
| Scanner.TypesTableCorrect | src/scanner.c:1456-1487 | For every protocol, message and argument: the entry at the message's index plus the argument's position is in the table and is that argument's interface or NULL |
| Scanner.NullRunIsNeeded | src/scanner.c:1447-1487 | The leading run of NULLs is no longer than the longest message without an interface needs |
| Scanner.TableSize | src/scanner.c:1447-1487 | The table is exactly that run and one entry per argument of the messages that have an interface, whose slices stand one after the other |
| Scanner.SliceInTable | src/scanner.c:1447-1487 | A message without interfaces fits inside the leading NULL run; any other has its own slice, in range |
| Scanner.SignaturePosition | src/connection.c:829-856 | The place in the signature, by which the runtime indexes the table, is the argument's place exactly when no untyped new id is at or before it |
| Scanner.RuntimeFindsEntry | src/connection.c:829-856 | With no untyped new id at or before an argument, the entry the runtime looks at for it is in the table and is its interface or NULL |
| Scanner.PositionShifts | src/connection.c:829-856 | The place in the signature is the argument's place plus two for every untyped new id at or before it |
| Scanner.RuntimeInTableIff | src/connection.c:829-856 | For every message and argument, the entry looked at is in the table exactly when the shifted place is less than the entries from the message's own index to the end |
| Scanner.RuntimeStaysInTable | src/connection.c:829-856 | For the last argument of the last message, if that has an interface, the entry looked at is in the table exactly when the message has no untyped new id |
| Scanner.ObjectAfterUntyped | src/connection.c:829-856 | An untyped new id followed by an object is such a message: the runtime looks at entry 3 of a table of 2 |
| Scanner.EmitSignature | src/scanner.c:1503-1543 | The walk prints the version above 1 and each argument's text, in order |
| Scanner.ForwardDeclarations | src/scanner.c:1313-1345 | Marks exactly the messages without interfaces and finds the longest of them |
| Scanner.EmitMessage | src/scanner.c:1456-1487 | Extends the table by the message's slice, if it has one, and notes where it starts |
| Scanner.EmitTypes | src/scanner.c:1447-1487 | The walk lays out the whole table and gives every message its index |
| EventLoop.EveryLifeInOrder | src/event-loop.c:315-433 | Over any run, whatever callbacks add, check or remove: the log agrees with the lists on every source, no source is dispatched after it was removed before it is freed and its address reused, and none is freed twice without being handed out in between |
| EventLoop.TurnFreesWhatWasRemoved | src/event-loop.c:406-433 | Freed in a turn is exactly what was up for freeing at its start or was removed by then, each once, idle sources that were waiting among it; everything else stays with its descriptor, but for what the closing idle callbacks remove, which is exactly what is then up for freeing |
| EventLoop.BatchPassesOverTheRemoved | src/event-loop.c:418-422 | Of a batch exactly the sources removed before their turn are passed over; the others are dispatched once each, and nothing else is |
| CallbackTurns.BatchRunsUnlessTold | src/event-loop.c:418-422 | A batch passes a source over exactly if it was removed already or a callback of the batch that ran before it was told to remove it; every dispatch runs one callback |
| EventLoop.BatchInOrder | src/event-loop.c:418-422 | The sources of a batch are dispatched in its order |
| EventLoop.AllReported | src/event-loop.c:414-416 | If no more sources are ready than one wait can report, all of them that are registered are in the batch |
| CallbackTurns.ReadySourcesRunUnlessTold | src/event-loop.c:406-433 | In a turn every ready source is dispatched, except exactly those that an idle callback or one of the batch, having run before it, was told to remove |
| EventLoop.TurnInOrder | src/event-loop.c:406-433 | In a turn no idle callback runs after a dispatch until sources are freed, and a wait that fails leaves it at the idle callbacks |
| EventLoop.RemovedIsNotUsed | src/event-loop.c:315-331 | In a log where a source lives in order, it is closed from its removal until it is freed, and neither dispatched nor run as idle nor handed out |
| EventLoop.FreedIsGone | src/event-loop.c:334-342 | In such a log nothing happens to a freed source until its address is handed out anew |
| EventLoop.RemovingOk | src/event-loop.c:315-331 | A source removed is closed and on the destroy list exactly once, also if it was there, and on no other list; no other source changes |
| EventLoop.CallingOk | src/event-loop.c:72-89 | Whatever a callback does, nothing is freed, and sources are closed and put up for freeing exactly as it removes them |
| EventLoop.IdlingOk | src/event-loop.c:393-403 | When idle dispatch ends no idle source is left; each that was waiting has been removed, and other sources are closed only if a callback removed them |
| CallbackTurns.IdleRunsUnlessTold | src/event-loop.c:393-403 | Idle dispatch runs every idle source, except exactly those that a callback that ran before was told to remove; every run takes one callback |
| EventLoop.IdleSourcesRun | src/event-loop.c:393-403 | Idle sources run once each, in the order of the list, and each is removed before the next runs |
| EventLoop.AddedIsThere | src/event-loop.c:96-124 | A source added is registered with its descriptor, or waits behind all other idle ones |
| EventLoop.CheckedIsThere | src/event-loop.c:309-312 | A source checked comes last on the check list, unless it is on a list already |
| EventLoop.CallbackDoesWhatItIsTold | src/event-loop.c:400-400 | What runs is the next callback there is, and it removes exactly what it is told to |
| EventLoop.CallsAdd | src/event-loop.c:96-124 | A callback adds exactly what it is told to |
| CallbackTurns.CallsKeep | src/event-loop.c:393-422 | A source there is stays registered, and on the idle list, exactly if no call of the callback removes it |
| EventLoop.DispatchingOk | src/event-loop.c:418-422 | A batch closes and puts up for freeing exactly what callbacks remove meanwhile |
| EventLoop.FreeingOk | src/event-loop.c:334-342 | Frees exactly what is on the destroy list, each once |
| EventLoop.Loop.Remove | src/event-loop.c:315-331 | Refines removing a source: closed unless it is already, unlinked, put up for freeing |
| EventLoop.Loop.RunCallback | src/event-loop.c:72-89 | Refines a callback: its calls in order |
| EventLoop.Loop.ProcessDestroyList | src/event-loop.c:334-342 | Refines freeing the destroy list, every source on it still allocated at its turn |
| EventLoop.Loop.DispatchIdle | src/event-loop.c:393-403 | Refines idle dispatch, and ends however the callbacks add idle sources |
| EventLoop.Loop.DispatchBatch | src/event-loop.c:418-422 | Refines a batch; every source in it is still allocated when it is looked at |
| EventLoop.Loop.Dispatch | src/event-loop.c:406-433 | Refines a turn of the loop: idle callbacks, the batch, freeing, idle callbacks again; or only the first when epoll fails |
| Registry.ReplayAnnouncements | src/wayland-server.c:776-803 | Replaying the announcements of a list of globals gives that list |
| Registry.RemoveAt | src/wayland-server.c:988-998 | With unique names, withdrawing a name cuts out just its global |
| Registry.Display.CreateGlobal | src/wayland-server.c:944-985 | Appends a global under a new name and tells every registry, or refuses a version out of range changing nothing; every registry's replay still gives the list of globals |
| Registry.Display.DestroyGlobal | src/wayland-server.c:988-998 | Cuts out the global and tells every registry; replay agreement is kept |
| Registry.Display.GetRegistry | src/wayland-server.c:776-803 | The new registry is sent all globals in order, so its replay agrees from the start |
| Registry.Display.Unbind | src/wayland-server.c:770-773 | Takes one registry out of the list; the agreement of the others stays |
| Registry.Display.Bind | src/wayland-server.c:718-745 | Binds the global of that name with a version between 1 and its interface's; the errors are exactly no such name and a version of 0 or too high |
| Shm.BoundsTest | src/wayland-shm.c:128-179 | The test overflows nowhere and passes exactly the buffers of positive size that end inside the pool, with stride times height plus one in 31 bits |
| Shm.RowsInside | src/wayland-shm.c:128-179 | Every byte of every row of a buffer that fits is in the pool |
| Shm.DropHolder | src/wayland-shm.c:76-84 | Dropping one holder unmaps the pool exactly when none is left, and no other pool or buffer is affected |
| Shm.Shm.EveryByteMapped | src/wayland-shm.c:354-362 | At all times every byte of every row of every live buffer is inside a mapped pool |
| Shm.Shm.CreatePool | src/wayland-shm.c:228-277 | A pool starts with its resource as the one holder, or is refused |
| Shm.Shm.CreateBuffer | src/wayland-shm.c:128-179 | Accepts exactly the supported formats and fitting sizes, adding a holder; a failure changes nothing |
| Shm.Shm.DestroyBuffer | src/wayland-shm.c:87-94 | The buffer goes and its pool loses one holder |
| Shm.Shm.DestroyPool | src/wayland-shm.c:182-187 | The pool stays mapped exactly while a buffer or a reference holds it |
| Shm.Shm.Resize | src/wayland-shm.c:196-219 | Grows the pool or refuses; every live buffer still fits |
| Shm.Shm.RefPool | src/wayland-shm.c:397-403 | Adds a holder to the buffer's pool |
| Shm.Shm.UnrefPool | src/wayland-shm.c:419-422 | Takes the holder away; the pool stays exactly while something else holds it |
| IntrusiveList.Insert | src/wayland-util.c:45-52 | The element comes right after the given node, and the ring is otherwise the same |
| IntrusiveList.Remove | src/wayland-util.c:54-61 | The element leaves the ring, the rest of which is the same, and its own links are cleared |
| IntrusiveList.Length | src/wayland-util.c:63-77 | Ends, with the number of elements |
| IntrusiveList.Empty | src/wayland-util.c:79-83 | True exactly when the head is alone |
| IntrusiveList.InsertList | src/wayland-util.c:85-95 | The other list's elements come first, in order, then the list's own |
| IntrusiveList.RingJoined | src/wayland-util.c:85-95 | Two rings joined at four links are one ring |
| IntrusiveList.Rotate | src/wayland-util.c:38-61 | A ring seen from any of its nodes is the same ring |
| IntrusiveList.ForEachSafe | src/wayland-util.h:190-195 | Every element there at the start is visited once in order, whichever are removed as the current one, and the ring is left with those kept |
| IntrusiveList.KeptMeaning | src/wayland-util.h:190-195 | What is kept is exactly what was not removed, in order |
| FixedPoint.ToDoubleExact | src/wayland-util.h:234-245 | Every fixed-point number converts to exactly its 256th part |
| FixedPoint.FromDoubleNearest | src/wayland-util.h:247-258 | The result is the low 32 bits of an integer within 1/2 of 256 times the double, so it is itself that near exactly when that integer fits 32 bits |
| FixedPoint.FromDoubleDefined | src/wayland-util.h:247-258 | For every double of moderate size there is such a result |
| FixedPoint.FixedRoundTrip | src/wayland-util.h:234-258 | To double and back is the identity on all 32-bit values |
| FixedPoint.BitsInBinade | src/wayland-util.h:247-258 | Between 2^44 and 2^45 the 64 bits of a double are a fixed exponent and a count of 256ths |
| Xcursor.FindBestSize | cursor/xcursor.c:401-429 | Finds the size of the first image at the least distance, and how many images have it, exactly when that is not of nominal size 0; if it is, finds all images at the same distance on the other side, or else what there is after the last image of size 0; nothing when there is no image |
| Xcursor.DistMeaning | cursor/xcursor.c:401-429 | The distance of two sizes is how far one is above the other, whichever is the larger |
| Xcursor.ScanMeaning | cursor/xcursor.c:401-429 | What the search does entry by entry comes to that, for every table |
| Xcursor.PastLastZero | cursor/xcursor.c:401-429 | What is found after the last image of size 0 is the first image there at the least distance, and all of its size there |
| Xcursor.FindImageToc | cursor/xcursor.c:431-456 | Yields image number n of a size in table order, and -1 exactly beyond the last |
| Xcursor.ImagesOfMeaning | cursor/xcursor.c:431-456 | The list that both are measured by holds exactly the images of that size, in increasing table order |
| Xcursor.OneFirstMinimiser | cursor/xcursor.c:401-429 | There is only one size that is that of the first image at the least distance |
| Xcursor.LoadImages | cursor/xcursor.c:517-561 | Loads as many images of the size found as were counted, in table order, exactly when a size other than 0 is found and all of them can be read; a failed load yields none |
| Xcursor.WantedAreAll | cursor/xcursor.c:517-561 | If the nearest image is not of size 0, what is loaded is all images of the one best size |

## Left out

- System calls as such: sockets, epoll, mmap and the rest are inputs; an interrupted call that is repeated is one call, and one `recvmsg` brings at most one control message of at most 28 fds.
- libffi, `va_list` handling, closure printing, logging, running out of memory, and `dup` of descriptors (a descriptor keeps its number here).
- Malformed or hostile peers: sizes below 8, unknown ids, double `delete_id`.
- Framing.HandleRequests: requires that no header says size 0, on which the server's loop would not move on; the client's loop is modelled with it.
- Events to zombies or unknown proxies that carry fds or new ids: the client consumes only their bytes, so what follows is out of step.
- IdSafety.IdReuseIsSafe: is about client-allocated ids only, since the client keeps no zombie for ids the server allocated; requests are sent with their new ids in one go, so the older `wl_proxy_create` with a separate send is not covered.
- Endpoints.ClientDisplay.HandleDelete: is for ids the client knows; that there are no others is `IdSafety.QueuedDeleteIsHeld`.
- TaggedMap.Map.InsertNew: the client side is limited to 2^31 ids, as far as 32-bit free links reach.
- The server's interface checks in `wl_closure_lookup_objects`, `wl_map_for_each`, `wl_map_release`, and how a `wl_array` grows (storage is a sequence here).
- Transport.NothingLostNothingLate: ends at the first send that fails and at a read that overflows the fd ring, as `EndToEnd.ClosuresComeBack` does; when the latter can happen is `DescriptorRing.OverflowIff`.
- Connection.Connection.Send: is for one message; that its callers keep at most 28 fds pending is `Transport.NothingLostNothingLate`.
- Codec.Serialize: sizes from 2^31 bytes up, where 32-bit sizes would wrap, are excluded; the connection refuses anything over 4096 bytes anyway.
- The leak of descriptors already duplicated when marshalling meets a NULL, and the descriptor left open when a pool of size 0 or less is asked for.
- ProxyRefs.Client.QueueEvent: the new ids a message reserves before it fails to demarshal are left out; an id the server allocates again while the client still has its proxy is followed only as far as memory goes.
- Shm.Shm.CreatePool: whether the descriptor is closed is not modelled; nor are SIGBUS handling and begin/end access.
- Scanner: reading XML, DTD checks, header stubs, sorting and printing of forward declarations; requests and events of all interfaces are one list of messages in the order walked.
- Signature.ArgCount: an unknown character is skipped, as in the source; `atoi` beyond the range of int is not modelled, and only blank, tab, newline and return count as space.
- EventLoop.Loop.Dispatch: the check list's loop after dispatching, signals and timers are left out; callbacks do not dispatch recursively.
- Registry.Display.CreateGlobal: names are not followed past 2^32 globals.
- Registry.Display.Bind: the interface name a client sends is not compared, as in the source.
- FixedPoint.FromDoubleNearest: doubles beyond 2^42 in size (none of which fits 24.8 bits), infinities and NaN are excluded; ties may round either way, which the bound does not depend on.
- Reading cursor files, pixels and themes.
- Deprecated interfaces, lock files, environment variables and the cursor theme library.
