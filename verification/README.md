# Proofs about the netlink and AF_XDP programs

This Dafny project models two parts of the repository and proves what they promise.

**Netlink (`netlink/`, `bpf/tc-attach.c`).** Requests are laid out as aligned, nested
type-length-value attributes in a zeroed byte buffer; replies are walked message by
message and attribute by attribute with a signed remaining length. The format is that of
sections 2.2 and 2.3.2 of RFC 3549, with little-endian fields and the macros of netlink(3)
and rtnetlink(3).

- `Bytes`, `Attributes`, `Messages`: fields, padding, C strings; the encoding of attribute
  lists and datagrams, and the walks that invert it.
- `GetLinks`, `IfAddrs`: the two readers. Both leave the 16-byte message header in the
  attribute budget (`nlmsg_len - sizeof(*ifi)`), so every walk looks behind its message. The
  code is kept as it is.
- `Overhang`, `Datagrams`, `LinkDump`, `AddrDump`: where such a walk ends up, datagrams as
  their sender meant them, and for each reader exactly when its output is still what was
  sent: for one message, one datagram and a whole run.
- `Builder`, `TcFilter`, `Veth`, `SetIfname`: the builders, in place on an array, each
  proved to send the bytes of one encoded message, and that message read back.

**AF_XDP (`af_xdp/`).** Frames circulate between the program and the kernel over
single-producer single-consumer rings with 32-bit indices that wrap and slots found by
masking.

- `XskRing`: the ring operations beside the same operations on unbounded logs.
- `RxProtocol`, `RxSafety`, `RxTheorems`, `RxSocket`: the receive program. The first three
  are a state machine of application micro-steps and kernel steps in any order, its
  invariant, and the promises for every run. The last is the program text on mutable
  state; each method keeps the socket in a state reachable in the machine.
- `TxProtocol`, `TxSafety`, `TxTheorems`, `TxSocket`: the same for the send program.

How to read the statements:

- A received datagram (`Receipt`) is a memory of at least 8192 + 16 bytes whose first `len`
  bytes arrived; the others are arbitrary. The 16 extra bytes stand for what lies behind the
  receive buffer, which the readers can look at. A receive that returns 0 or less is `Failed`.
- What a builder sends is stated twice: as the bytes of an encoded message, and as what its
  receiver reads back with `Get16`, `Get32` and `Decode`, in the numbers of the kernel headers
  (`IsFilterRequest`, `IsQdiscRequest`, `IsVethRequest`, `IsRename`).
- `Holds(buf, p)` says that a buffer contains `p` and then only zeros.
- C strings that the programs measure with `strlen` or `strnlen` are sequences of their
  characters without the NUL. Where a program has constant strings and limits, they are
  parameters here.
- libbpf is not part of the repository. `XskRing` states what the programs rely on, as
  `xsk.h` has it: `reserve` gives all or nothing and reads the consumer index only when its
  private copy leaves too few slots, `peek` gives at most what was asked, `submit` and
  `release` publish.
- The kernel is any party that takes submitted entries in order, writes only frames it
  holds, publishes when a ring has room, and takes a TX entry only when its completion will
  have a place. In `RxSocket` and `TxSocket` an arbitrary `schedule` says what it does
  between two steps of the program. A wakeup lets the kernel run once more and makes it do
  something if it can: on the receive side take a fill entry, on the send side any enabled
  step. That is all the reserve loop needs to end.
- The logs (`fillQ`, `rxQ`, `txQ`, `compQ`, `packets`) record what happened; no step
  depends on them.

Findings about the code:

- The attribute budget of `netlink/get-links.c:79` and `netlink/if-addrs.c:172` is 16 bytes
  too large. get-links still reads a message right if another one follows it; a link message
  that comes last can print a name left in the buffer by an earlier datagram
  (`LinkDump.StaleNameIsPrinted`), and `LinkDump.DumpIsExactIff` says exactly when a whole
  run is right.
- if-addrs joins multicast groups, so its datagrams are mostly single notifications, and its
  walk reads what the buffer held before. `AddrDump.StaleLineIsPrinted` shows a label that
  was not sent; `AddrDump.NotificationExactIff` and `AddrDump.RunIsExactIff` say exactly when
  the output is right. Between messages it prints one `unspec` line before a bare 16-byte
  header.
- `netlink/add-veth-ifname2.c:96` adds the unaligned length of the kind. It is right for
  `veth` and exactly for kinds whose length is a multiple of four (`InfoDecodesIff`).
- `netlink/add-tcfilter.c:170` does not copy the name's NUL; the zeroed buffer supplies it,
  and the result is the one of `bpf/tc-attach.c:170` exactly within the `strnlen` limits.

## Model

| member | source | states |
|---|---|---|
| Attributes.EncodeAppend | netlink/add-tcfilter.c:163-187 | appending an attribute at the aligned end encodes the longer list, for any list |
| Attributes.WalkIsSafe | netlink/get-links.c:79-84 | over arbitrary bytes: attributes met lie inside the budgeted bytes, follow each other without overlap, and the remaining length ends at -3 or more |
| Attributes.WalkIsAligned | netlink/get-links.c:81-82 | over arbitrary bytes: every attribute met, and the place where the walk stops, has the alignment the walk started with |
| Attributes.WalkEncoded | netlink/get-links.c:81-84 | a walk over an encoded list returns it in order and goes on at its aligned end with the budget that is left |
| Attributes.WalkExact | netlink/get-links.c:81-84 | with the exact payload budget a walk returns the encoded list and nothing else |
| Attributes.DecodeEncode | netlink/add-tcfilter.c:134-191 | round trip: decoding an encoded list of attributes gives the list |
| Messages.HeaderFields | netlink/set-ifname.c:49-54 | the header of an encoded message reads back as its length, type, flags, sequence number and port |
| Messages.OffsetsAreSafe | netlink/get-links.c:116-127 | over arbitrary bytes: every message met lies inside the received bytes and starts at the aligned end of the one before |
| Messages.OffsetsAreAligned | netlink/get-links.c:116-117 | over arbitrary bytes: every message met is at an aligned offset |
| Messages.BudgetNearZero | netlink/get-links.c:116-117 | the remaining length of the message loop never ends below -3 |
| Messages.OffsetsOfDatagram | netlink/get-links.c:116-127 | round trip: the loop over an encoded datagram meets exactly its messages |
| Messages.FirstStop | netlink/get-links.c:118-125 | the first message whose type is DONE or ERROR, none before it being one |
| Messages.LoopStep | netlink/if-addrs.c:216-230 | one round of either message loop: stop at a malformed header, at DONE or at ERROR, else handle the message and go on behind it |
| GetLinks.FirstType | netlink/get-links.c:92-125 | by the bytes received: type 3 gives code 1, type 2 gives -1, both print nothing; type 16 prints its names, any other type is skipped |
| GetLinks.ParseLinkMessage | netlink/get-links.c:75-87 | prints the names among all attributes the walk with the oversized budget meets |
| GetLinks.ParseMessage | netlink/get-links.c:90-98 | only RTM_NEWLINK messages are parsed |
| GetLinks.ReadDatagram | netlink/get-links.c:116-130 | returns 1 at DONE, -1 at ERROR, 0 otherwise, and prints exactly the messages before the first of these or a malformed one |
| GetLinks.ReadMessage | netlink/get-links.c:101-131 | a failed receive returns -1 and prints nothing; else the datagram's code and names |
| GetLinks.ReadMessages | netlink/get-links.c:134-136 | receives until the first non-zero code, no further, and prints what those receipts give in order |
| Overhang.WalkStaysNear | netlink/get-links.c:79-84 | over arbitrary bytes: all attributes met, and the header that ends the walk if there is budget to read it, are aligned and end at most 16 bytes behind the message; the budget ends at -3 or more |
| Overhang.WalkOverhangs | netlink/get-links.c:76-84 | the walk gives the message's own attributes, then those seen in the 13 to 16 bytes behind it |
| Overhang.VisitsExactIff | netlink/get-links.c:79-84 | the walk gives exactly the message's attributes if and only if the bytes behind it do not pass RTA_OK for the budget left |
| Overhang.HeaderAsAttribute | netlink/get-links.c:79-82 | a message header read as an attribute header has that length and type 0 |
| Overhang.WalkIntoHeader | netlink/get-links.c:79-84 | a following message header shows as one attribute of type 0 when it is bare and all 16 bytes are left, else as nothing |
| Overhang.VisitsBeforeMessage | netlink/if-addrs.c:172-177 | before another message of less than 64 KiB the walk is exact up to that one attribute |
| Datagrams.ItemInPlace | netlink/get-links.c:116-127 | a message of a datagram is met with its length, type, body and attributes, and leaves 13 to 16 bytes of budget behind it |
| Datagrams.HoldsFewerItems | netlink/get-links.c:116-117 | behind the first message of a datagram stands the rest of it |
| Datagrams.DatagramHandled | netlink/if-addrs.c:216-230 | the loop of either reader handles exactly the messages of a datagram before its first DONE or ERROR, and stops there or at a malformed one |
| LinkDump.LinkNames | netlink/get-links.c:62-87 | one link message prints its own names, then those the overhang shows |
| LinkDump.PrintsIff | netlink/get-links.c:62-84 | a walk prints a name if and only if one of its steps passes RTA_OK with type IFLA_IFNAME |
| LinkDump.LinkNamesExactIff | netlink/get-links.c:62-87 | the output for one link message is exact if and only if that guard fails on the bytes behind it |
| LinkDump.ItemNames | netlink/get-links.c:62-98 | a message of a dump prints its names, then those its walk shows behind it |
| LinkDump.NamesInDatagram | netlink/get-links.c:116-128 | the messages of a datagram print the names in them, in order, then those shown behind a link that comes last |
| LinkDump.DatagramNames | netlink/get-links.c:101-131 | a receive prints these and gives the return code its end calls for |
| LinkDump.StaleIff | netlink/get-links.c:79-84 | a receive prints a stale name if and only if its datagram ends in a link message and the guard passes on the bytes behind it |
| LinkDump.DumpIsExactIff | netlink/get-links.c:101-136 | whole run: over any number of datagrams up to the first DONE, ERROR or failed receive exactly the interface names are printed, in order, if and only if the guard fails behind every datagram that ends in a link message; nothing later is read |
| LinkDump.DumpPrintsEveryName | netlink/get-links.c:101-136 | so the output is exact when such a datagram is followed by no attribute header of length 4 to 16 |
| LinkDump.StaleNameIsPrinted | netlink/get-links.c:75-131 | concrete receive of a link message without attributes for which the program prints a stale name |
| IfAddrs.FirstType | netlink/if-addrs.c:184-225 | by the bytes received: type 3 gives code 0, type 2 gives -1, both print nothing; type 20 is a new and 21 a deleted address, any other prints `other` |
| IfAddrs.ParseAddrMessage | netlink/if-addrs.c:164-180 | prints the fixed header and every attribute the walk with the oversized budget meets |
| IfAddrs.ParseMessage | netlink/if-addrs.c:183-198 | new and deleted addresses are parsed, any other type prints `other` |
| IfAddrs.ReadDatagram | netlink/if-addrs.c:216-230 | returns -1 at ERROR and 0 otherwise, also at DONE, and prints exactly the messages before the stop |
| IfAddrs.ReadMessage | netlink/if-addrs.c:201-231 | a failed receive returns -1 and prints nothing; else the datagram's code and lines |
| IfAddrs.ReadMessages | netlink/if-addrs.c:234-236 | reads up to the first failed receive or ERROR and no further; DONE ends only its datagram |
| AddrDump.AddressLinesOverhang | netlink/if-addrs.c:164-180 | an address message prints its own lines, then one for each attribute seen behind it |
| AddrDump.AddressLinesExactIff | netlink/if-addrs.c:164-180 | whatever lies behind an address message, its lines are exact if and only if these bytes do not pass RTA_OK for the budget left |
| AddrDump.AddressLinesBeforeMessage | netlink/if-addrs.c:164-180 | before another message one `unspec` line is added if that message is a bare header and all padding was counted, else nothing |
| AddrDump.LinesOfItem | netlink/if-addrs.c:164-198 | a message of a datagram prints its lines and those shown behind it |
| AddrDump.LinesInDatagram | netlink/if-addrs.c:216-228 | the messages of a datagram print exactly their lines if and only if the guard fails behind each of them, and never fewer |
| AddrDump.DatagramLinesExactIff | netlink/if-addrs.c:201-231 | the same for a receive, which ends the run if it failed or the datagram ends in ERROR |
| AddrDump.NotificationExactIff | netlink/if-addrs.c:164-231 | a single notification is printed exactly if and only if what the buffer held behind it does not pass RTA_OK |
| AddrDump.RunIsExactIff | netlink/if-addrs.c:201-236 | whole run: over all receives exactly the lines sent are printed, in order, if and only if the guard fails behind every address message |
| AddrDump.StaleLineIsPrinted | netlink/if-addrs.c:164-180 | concrete receive of an address without attributes for which the program prints a stale label |
| Bytes.Store | netlink/set-ifname.c:66 | memcpy replaces exactly the bytes at its place |
| Builder.AppendAttr | netlink/set-ifname.c:61-69 | the step every builder repeats: afterwards the buffer holds the message with the attribute added and counted |
| Builder.AppendNested | netlink/add-tcfilter.c:163-174 | the same inside an attribute: its length is read, patched, and equals its contents |
| Builder.UpdateLength | netlink/add-tcfilter.c:189-191 | adding the unpadded length at the aligned end makes the length field right |
| Builder.CloseNest | netlink/add-veth-ifname2.c:72-77 | patching the length of a filled attribute makes it the encoding of its payload |
| Builder.MessageDecodes | netlink/add-tcfilter.c:120-191 | the attributes of any built message decode to the list appended |
| Builder.RequestReads | netlink/add-tcfilter.c:120-191 | any built request reads back as its header, its fixed body and its attributes |
| TcFilter.AppendOptions | netlink/add-tcfilter.c:153-187 | descriptor, name and flags end up as the encoded options list |
| TcFilter.AddOptions | netlink/add-tcfilter.c:146-191 | the options attribute is appended, filled and counted |
| TcFilter.SendRequest | netlink/add-tcfilter.c:113-194 | the bytes sent are the filter message of the kind and name cut to their limits, and read back as type 44 for this interface on the clsact ingress parent, with this kind, descriptor, name and the direct-action flag |
| TcFilter.FillString | bpf/tc-attach.c:152-155 | a string attribute is written with its NUL and its padding |
| TcFilter.FillOptions | bpf/tc-attach.c:157-175 | the precomputed options length and places give the encoded options list |
| TcFilter.SendRequestFilter | bpf/tc-attach.c:113-178 | the bytes sent are the filter message of the whole kind and name, and read back the same way |
| TcFilter.SendRequestQdisc | bpf/tc-attach.c:72-99 | the bytes sent are the qdisc message, and read back as type 36 for this interface with the clsact handle, parent and kind |
| TcFilter.LayoutIsEncoding | bpf/tc-attach.c:117-175 | the parts of the precomputed layout put together are the encoded message |
| TcFilter.SameRequestIff | bpf/tc-attach.c:117-175 | both programs send identical bytes if and only if kind and name are within the strnlen limits |
| TcFilter.FilterReads | netlink/add-tcfilter.c:120-191 | the request reads back: header and tcmsg fields, kind and options, and in the options the 4-byte descriptor (type 6), the name (7) and flags 1 (8) |
| TcFilter.QdiscReads | bpf/tc-attach.c:79-96 | the qdisc request reads back: header and tcmsg fields and the kind |
| Veth.AddLinkInfoData | netlink/add-veth-ifname2.c:49-80 | at any place writes the encoded data attribute and returns its length |
| Veth.AddLinkInfo | netlink/add-veth-ifname2.c:83-103 | writes the kind and the data at the kind's unpadded end, and returns the length of the whole |
| Veth.SendRequest | netlink/add-veth-ifname2.c:113-151 | the bytes sent are the link message with name and link information, and read back as stated by Veth.VethReads |
| Veth.PeerDecodes | netlink/add-veth-ifname2.c:55-77 | data decodes to the peer, the peer to an interface header of type 1, index 0 and all change bits, and the name cut to 15 characters |
| Veth.UnpaddedIsMisread | netlink/add-veth-ifname2.c:95-100 | an attribute put behind an unpadded one is not found again |
| Veth.InfoDecodesIff | netlink/add-veth-ifname2.c:89-100 | link information decodes to kind and data if and only if the kind's length is a multiple of four |
| Veth.VethReads | netlink/add-veth-ifname2.c:49-148 | the request reads back: header, interface header, name and, for every kind, the kind; for a kind whose length is a multiple of four also the peer's interface header and name, through all four levels |
| SetIfname.SendRequest | netlink/set-ifname.c:42-72 | the zeroed request holds the rename message, its length is the one sent, and what is sent reads back as stated by SetIfname.RenameReads |
| SetIfname.RenameReads | netlink/set-ifname.c:49-69 | the request reads back as type 16 for this interface index with all change bits, and one attribute of type 3 with the first 15 characters at most of the name |
| SetIfname.RenameIsPrinted | netlink/set-ifname.c:47-69 | parsed by get-links the request gives exactly one line, the first 15 characters at most of the new name |
| XskRing.MaskIsMod | af_xdp/xdp-sock-rx.c:72 | masking an index with size - 1 is the remainder modulo the size |
| XskRing.WrapKeepsSlot | af_xdp/xdp-sock-rx.c:72-82 | wrapping an index at 2^32 does not change its slot |
| XskRing.ReserveAgrees | af_xdp/xdp-sock-rx.c:54-64 | a reserve on wrapped indices grants all slots exactly when the kernel has left that many free, from the right index |
| XskRing.WriteAgrees | af_xdp/xdp-sock-rx.c:80-82 | a slot written at the running index extends the log and disturbs no live entry |
| XskRing.SubmitAgrees | af_xdp/xdp-sock-rx.c:86 | submit hands exactly the next entries of the log to the kernel |
| XskRing.TakeAgrees | af_xdp/xdp-sock-rx.c:86 | the kernel finds an entry exactly when one is submitted and gets the oldest |
| XskRing.PeekAgrees | af_xdp/xdp-sock-rx.c:41-43 | a peek claims the entries known from before, or if there are none all there are, at most the batch, from the right index |
| XskRing.ReleaseAgrees | af_xdp/xdp-sock-rx.c:87 | release frees exactly the oldest claimed entries |
| XskRing.PublishAgrees | af_xdp/xdp-sock-tx.c:41-47 | the kernel can publish exactly when a slot is free, and appends to the log |
| RxProtocol.ProgramIsValid | af_xdp/xdp-sock-rx.c:21-25 | the program's sizes, and that they meet the assumptions of the protocol |
| RxSafety.NextInv | af_xdp/xdp-sock-rx.c:37-90 | every step of either side keeps the invariant: coupling of rings and logs, control, one owner per frame, stored packets |
| RxSafety.RunInv | af_xdp/xdp-sock-rx.c:153-163 | so does every run |
| RxSafety.StartInv | af_xdp/xdp-sock-rx.c:124-136 | the populated fill ring meets the invariant |
| RxTheorems.OneOwner | af_xdp/xdp-sock-rx.c:66-87 | in every reachable state each populated frame is in exactly one of fill ring, kernel, unread RX and batch, and no other frame is anywhere |
| RxTheorems.ReadsOwnFrame | af_xdp/xdp-sock-rx.c:71-77 | while a packet is printed the kernel neither holds its frame nor can take it, and all its bytes lie in that frame |
| RxTheorems.PrintedIsPrefix | af_xdp/xdp-sock-rx.c:66-83 | printed packets are, byte for byte, a prefix of what the kernel published, and frames come back in that order |
| RxTheorems.SubmittedBeforeReleased | af_xdp/xdp-sock-rx.c:86-87 | an RX slot is released only when the frame of its packet is on the fill ring again, in order |
| RxTheorems.ReserveAtOnce | af_xdp/xdp-sock-rx.c:56-64 | in every reachable state the reserve succeeds at its first attempt |
| RxTheorems.RingsRefineLogs | af_xdp/xdp-sock-rx.c:41-87 | the rings stay windows of unbounded logs past any number of wraparounds and never overflow |
| RxSocket.Populate | af_xdp/xdp-sock-rx.c:124-136 | the fill ring is populated with the first frames in order and submitted |
| RxSocket.Socket.constructor | af_xdp/xdp-sock-rx.c:124-149 | the socket starts with the fill ring populated and an empty RX ring |
| RxSocket.Socket.Wakeup | af_xdp/xdp-sock-rx.c:45-49 | the kernel runs, and takes a fill entry if one is left |
| RxSocket.Socket.PeekRx | af_xdp/xdp-sock-rx.c:41-44 | claims exactly the packets known from before, or else all that were published, at most a batch |
| RxSocket.Socket.ReserveFill | af_xdp/xdp-sock-rx.c:54-56 | reserves all slots or none, as the protocol step does |
| RxSocket.Socket.ReadByte | af_xdp/xdp-sock-rx.c:30-32 | reads the next byte of the current packet |
| RxSocket.Socket.RecycleFrame | af_xdp/xdp-sock-rx.c:79-82 | puts the frame's address in the next fill slot |
| RxSocket.Socket.SubmitFill | af_xdp/xdp-sock-rx.c:86 | submits the batch to the fill ring |
| RxSocket.Socket.ReleaseRx | af_xdp/xdp-sock-rx.c:87 | releases the batch on the RX ring |
| RxSocket.Socket.PrintPacket | af_xdp/xdp-sock-rx.c:28-34 | prints `len` bytes of the current descriptor, whatever the kernel does meanwhile |
| RxSocket.Socket.ReserveSlots | af_xdp/xdp-sock-rx.c:53-64 | the reserve loop ends after its first attempt with a slot for every packet |
| RxSocket.Socket.HandlePackets | af_xdp/xdp-sock-rx.c:66-83 | the loop handles exactly the peeked packets, with both indices advancing together |
| RxSocket.Socket.Receive | af_xdp/xdp-sock-rx.c:37-90 | one call claims the packets known from before, or else all that were published, at most a batch; prints exactly these, as published and in order, and returns their frames to the fill ring in that order; with no packet it wakes the kernel |
| TxProtocol.ShiftIsProduct | af_xdp/xdp-sock-tx.c:75 | the shifted frame number is the product used at setup if and only if that address fits in 32 bits |
| TxProtocol.ProgramIsValid | af_xdp/xdp-sock-tx.c:24-31 | the program's sizes and packet, and that they meet the assumptions of the protocol |
| TxSafety.StartInv | af_xdp/xdp-sock-tx.c:118-136 | the state after setup meets the invariant |
| TxSafety.NextInv | af_xdp/xdp-sock-tx.c:34-84 | every step of either side keeps the invariant: rings and logs, control, whole batches, conservation |
| TxSafety.RunInv | af_xdp/xdp-sock-tx.c:53-84 | so does every run, for any number of sends |
| TxTheorems.Conservation | af_xdp/xdp-sock-tx.c:41-81 | submitted packets are on the TX ring, with the kernel, on the completion ring or released; releases never pass completions; completed addresses are those taken |
| TxTheorems.SendsBatches | af_xdp/xdp-sock-tx.c:65-81 | the TX ring has received whole batches and the part being written, and only the packet is transmitted |
| TxTheorems.BatchIsSound | af_xdp/xdp-sock-tx.c:66-77 | the descriptors of a send name distinct frames in range that hold exactly the packet |
| TxTheorems.WorkLeft | af_xdp/xdp-sock-tx.c:34-50 | as long as work is outstanding the kernel can step or a completion waits to be released |
| TxTheorems.NeverStuck | af_xdp/xdp-sock-tx.c:57-63 | whenever the reserve would fail the kernel can step or a completion waits to be released |
| TxTheorems.KernelWorks | af_xdp/xdp-sock-tx.c:57-63 | an enabled kernel step takes one from the work outstanding |
| TxTheorems.ReserveWorks | af_xdp/xdp-sock-tx.c:59-62 | a reserve succeeds exactly when there is room, and adds no work |
| TxTheorems.DrainWorks | af_xdp/xdp-sock-tx.c:44 | a peek claims the completions known from before, or else all there are, at most a batch |
| TxTheorems.ReleaseWorks | af_xdp/xdp-sock-tx.c:45-47 | a release takes from the work outstanding |
| TxTheorems.WaitingStep | af_xdp/xdp-sock-tx.c:57-63 | the reserve loop is left only with a granted reserve, and no step in it adds work |
| TxTheorems.WaitingIsBounded | af_xdp/xdp-sock-tx.c:57-63 | while the program waits at most the outstanding work can be done, so it cannot wait for ever beside a kernel that works |
| TxTheorems.WaitingCanEnd | af_xdp/xdp-sock-tx.c:57-63 | no deadlock: from every waiting state some steps get the descriptors reserved |
| TxSocket.Socket.constructor | af_xdp/xdp-sock-tx.c:118-136 | the first frames hold the packet and both rings are empty |
| TxSocket.Socket.Wakeup | af_xdp/xdp-sock-tx.c:36-39 | the kernel runs, and does work if it can |
| TxSocket.Socket.ReserveTx | af_xdp/xdp-sock-tx.c:59 | reserves the batch or nothing |
| TxSocket.Socket.FillDesc | af_xdp/xdp-sock-tx.c:70-76 | writes the descriptor of frame `i` at the index, as the protocol step does, and advances |
| TxSocket.Socket.SubmitTx | af_xdp/xdp-sock-tx.c:80 | publishes the batch, as the protocol step does |
| TxSocket.Socket.PeekCompletions | af_xdp/xdp-sock-tx.c:44 | claims exactly the completions known from before, or else all there are, at most a batch |
| TxSocket.Socket.ReleaseCompletions | af_xdp/xdp-sock-tx.c:46 | releases what was claimed |
| TxSocket.Socket.CompleteSend | af_xdp/xdp-sock-tx.c:34-50 | a call does some of the work outstanding if there is any, and releases the completions known from before, or else all there are after the wakeup, at most a batch |
| TxSocket.Socket.ReserveSlots | af_xdp/xdp-sock-tx.c:56-63 | the reserve loop ends with the batch reserved and adds no work |
| TxSocket.Socket.FillBatch | af_xdp/xdp-sock-tx.c:65-77 | the slots from the first reserved one on hold the descriptors of the batch, one for each frame |
| TxSocket.Socket.PutBatch | af_xdp/xdp-sock-tx.c:56-80 | one more batch is reserved, written and submitted, which adds its work and no more |
| TxSocket.Socket.SendPackets | af_xdp/xdp-sock-tx.c:53-84 | one call ends with exactly one more batch submitted, all completions seen released, nothing but the packet transmitted, and the kernel woken after the submit: less work is left than before and the batch together, and if none was left before, something of the batch is transmitted |

## Left out

- Sockets, `sendmsg`, `recvmsg`, `poll`, `mmap`, argument handling and `if_nametoindex`: received datagrams, interface indices and memory are parameters.
- The internals of libbpf and the kernel, memory ordering below atomic publication, zero-copy and unaligned modes: only the ring operations and capacity rules above are assumed.
- `needs_wakeup` flags: a wakeup that the flag skips is one whose kernel works anyway, so both are one step here.
- The error exit of the fill-ring population (`af_xdp/xdp-sock-rx.c:128-131`): an empty ring of the requested size always grants the reserve, which the constructor's proof shows.
- Send-side areas of 2^20 frames or more: there `i << 12` can wrap (TxProtocol.ShiftIsProduct), so the protocol theorems assume fewer frames.
- The text made of an attribute in `netlink/if-addrs.c:31-161`: a line records the attribute's type and payload. `IFA_LABEL` and `IFA_CACHEINFO` may read past a short payload there; that is not modelled.
- Reads of `%s` beyond the modelled memory in get-links: a string without NUL ends with the memory.
- Hexadecimal formatting in `print_packet`: printed packets are byte sequences.
- LinkDump.DumpIsExactIff: interface names in the received messages carry their NUL, as the kernel sends them, and every datagram consists of encoded messages up to its first DONE, ERROR or malformed one. For arbitrary bytes GetLinks.ReadMessages says what is printed.
- AddrDump.RunIsExactIff: every datagram consists of encoded messages up to its first DONE, ERROR or malformed one. For arbitrary bytes IfAddrs.ReadMessages says what is printed.
- TxTheorems.WaitingIsBounded: bounds the steps that do work; that the kernel makes such steps is assumed of it, not proved.
- The other builders in `netlink/`: instances of the same append step.
- The other readers, `netlink/if-flags.c`, `netlink/if-stats.c`, `netlink/if-rtas.c` and `netlink/if-events.c`: the same loops with other text.
- The programs in `bpf/` other than `tc-attach.c`, and `mosquitto/`, `ld_preload/`, `env/`, `netns/`: constant programs and thin wrappers.
