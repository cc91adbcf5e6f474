/** Netlink messages (section 2.3.2 of RFC 3549) in a received datagram: the
    16-byte header, the walk over NLMSG_OK and NLMSG_NEXT, and the encoding it
    inverts. */
module Messages {
  import opened Bytes
  import opened Attributes

  const HEADER := 16
  const NLMSG_ERROR := 2
  const NLMSG_DONE := 3
  const RTM_NEWLINK := 16
  const RTM_NEWADDR := 20
  const RTM_DELADDR := 21
  const NLM_F_REQUEST := 1
  const NLM_F_CREATE := 0x400
  const IFLA_IFNAME := 3

  /** Size of the receive buffer, and how far behind a message the readers look. */
  const BUFFER := 8192
  const SLACK := 16

  datatype Message = Message(ty: u16, flags: u16, seqno: u32, pid: u32, body: seq<byte>) {
    function Len(): nat { HEADER + |body| }

    predicate Fits() { Len() < 0x1_0000_0000 }
  }

  /** Header and body, unpadded: the bytes a builder passes to sendmsg. */
  function RawMessage(m: Message): (s: seq<byte>)
    ensures |s| == m.Len()
  {
    LE32(m.Len()) + LE16(m.ty) + LE16(m.flags) + LE32(m.seqno) + LE32(m.pid) + m.body
  }

  function DatagramBytes(msgs: seq<Message>): seq<byte>
    decreases |msgs|
  {
    if msgs == [] then [] else Pad4(RawMessage(msgs[0])) + DatagramBytes(msgs[1..])
  }

  predicate NlmsgOk(mem: seq<byte>, off: nat, len: int)
    requires off + len <= |mem|
  {
    HEADER <= len && HEADER <= Get32(mem, off) <= len
  }

  function TypeAt(mem: seq<byte>, off: nat): nat
    requires off + HEADER <= |mem|
  {
    Get16(mem, off + 4)
  }

  /** Offsets of all messages the loop over NLMSG_OK and NLMSG_NEXT would meet. */
  function Offsets(mem: seq<byte>, off: nat, len: int): (offs: seq<nat>)
    requires off + len <= |mem|
    decreases len
  {
    if NlmsgOk(mem, off, len) then
      var step := Align4(Get32(mem, off));
      [off] + Offsets(mem, off + step, len - step)
    else []
  }

  /** A message the loop may look at: header and claimed length lie before `end`. */
  predicate Framed(mem: seq<byte>, off: nat, end: int) {
    && off + HEADER <= |mem|
    && HEADER <= Get32(mem, off)
    && off + Get32(mem, off) <= end
  }

  predicate AllFramed(mem: seq<byte>, offs: seq<nat>, end: int) {
    forall i :: 0 <= i < |offs| ==> Framed(mem, offs[i], end)
  }

  /** For arbitrary buffer contents: every message met lies inside the received
      bytes, and the next one starts at its aligned end, so none overlap. */
  lemma {:induction false} OffsetsAreSafe(mem: seq<byte>, off: nat, len: int)
    requires off + len <= |mem|
    ensures AllFramed(mem, Offsets(mem, off, len), off + len)
    ensures var offs := Offsets(mem, off, len);
            && (offs != [] ==> offs[0] == off)
            && forall i :: 0 < i < |offs| ==> offs[i] == offs[i - 1] + Align4(Get32(mem, offs[i - 1]))
    decreases len
  {
    hide Align4, Get32;
    if NlmsgOk(mem, off, len) {
      var step := Align4(Get32(mem, off));
      var rest := Offsets(mem, off + step, len - step);
      OffsetsAreSafe(mem, off + step, len - step);
      assert Offsets(mem, off, len) == [off] + rest;
      assert AllFramed(mem, rest, off + len);
    }
  }

  lemma {:induction false} OffsetsAreAligned(mem: seq<byte>, off: nat, len: int)
    requires off + len <= |mem|
    ensures forall o :: o in Offsets(mem, off, len) ==> o % 4 == off % 4
    decreases len
  {
    hide Align4, Get32;
    if NlmsgOk(mem, off, len) {
      var step := Align4(Get32(mem, off));
      OffsetsAreAligned(mem, off + step, len - step);
    }
  }

  /** Reading the header of an encoded message back. */
  lemma HeaderFields(m: Message)
    requires m.Fits()
    ensures var s := RawMessage(m);
            && |s| >= 16 && Get32(s, 0) == |s| && Get16(s, 4) == m.ty && Get16(s, 6) == m.flags
            && Get32(s, 8) == m.seqno && Get32(s, 12) == m.pid && s[16..] == m.body
  {
    hide LE16, LE32;
    var s := RawMessage(m);
    assert s[0..4] == LE32(m.Len()) && s[4..6] == LE16(m.ty) && s[6..8] == LE16(m.flags);
    assert s[8..12] == LE32(m.seqno) && s[12..16] == LE32(m.pid) && s[16..] == m.body;
    hide Get16, Get32;
    Get32OfLE32(s, 0, m.Len());
    Get16OfLE16(s, 4, m.ty);
    Get16OfLE16(s, 6, m.flags);
    Get32OfLE32(s, 8, m.seqno);
    Get32OfLE32(s, 12, m.pid);
  }

  /** The budget left when the message loop stops. */
  function BytesLeft(mem: seq<byte>, off: nat, len: int): int
    requires off + len <= |mem|
    decreases len
  {
    if NlmsgOk(mem, off, len) then
      var step := Align4(Get32(mem, off));
      BytesLeft(mem, off + step, len - step)
    else len
  }

  /** NLMSG_NEXT may take up to three bytes of padding too many from the budget. */
  lemma {:induction false} BudgetNearZero(mem: seq<byte>, off: nat, len: int)
    requires off + len <= |mem| && 0 <= len
    ensures -3 <= BytesLeft(mem, off, len) <= len
    decreases len
  {
    hide Get32;
    if NlmsgOk(mem, off, len) {
      var step := Align4(Get32(mem, off));
      if 0 <= len - step {
        BudgetNearZero(mem, off + step, len - step);
      }
    }
  }

  lemma RawMessageAt(mem: seq<byte>, off: nat, m: Message)
    requires m.Fits() && At(mem, off, RawMessage(m))
    ensures off + m.Len() <= |mem|
    ensures Get32(mem, off) == m.Len() && TypeAt(mem, off) == m.ty
    ensures At(mem, off + HEADER, m.body)
  {
    var fields := LE32(m.Len()) + LE16(m.ty);
    var rest := LE16(m.flags) + LE32(m.seqno) + LE32(m.pid) + m.body;
    var header := LE32(m.Len()) + LE16(m.ty) + LE16(m.flags) + LE32(m.seqno) + LE32(m.pid);
    AtParts(mem, off, header, m.body, off + HEADER);
    assert RawMessage(m) == fields + rest;
    AtParts(mem, off, fields, rest, off + 6);
    AtParts(mem, off, LE32(m.Len()), LE16(m.ty), off + 4);
    Get32OfLE32(mem, off, m.Len());
    Get16OfLE16(mem, off + 4, m.ty);
  }

  function MessageOffsets(off: nat, msgs: seq<Message>): (offs: seq<nat>)
    ensures |offs| == |msgs|
    decreases |msgs|
  {
    if msgs == [] then [] else [off] + MessageOffsets(off + Align4(msgs[0].Len()), msgs[1..])
  }

  lemma DatagramHead(mem: seq<byte>, off: nat, msgs: seq<Message>)
    requires msgs != [] && At(mem, off, DatagramBytes(msgs))
    ensures At(mem, off, RawMessage(msgs[0]))
    ensures At(mem, off + Align4(msgs[0].Len()), DatagramBytes(msgs[1..]))
  {
    hide RawMessage, Align4, At;
    var raw := RawMessage(msgs[0]);
    AtParts(mem, off, Pad4(raw), DatagramBytes(msgs[1..]), off + Align4(msgs[0].Len()));
    AtParts(mem, off, raw, Zeros(Align4(|raw|) - |raw|), off + |raw|);
  }

  lemma OffsetsStep(mem: seq<byte>, off: nat, len: int, m: Message)
    requires m.Fits() && At(mem, off, RawMessage(m)) && m.Len() <= len && off + len <= |mem|
    ensures var n := Align4(m.Len());
            Offsets(mem, off, len) == [off] + Offsets(mem, off + n, len - n)
  {
    RawMessageAt(mem, off, m);
  }

  /** Round trip for a datagram: the loop meets exactly the encoded messages. */
  lemma {:induction false} OffsetsOfDatagram(mem: seq<byte>, off: nat, len: int, msgs: seq<Message>)
    requires forall m :: m in msgs ==> m.Fits()
    requires At(mem, off, DatagramBytes(msgs)) && len == |DatagramBytes(msgs)|
    ensures Offsets(mem, off, len) == MessageOffsets(off, msgs)
    decreases |msgs|
  {
    if msgs != [] {
      var step := Align4(msgs[0].Len());
      hide At, Offsets, Align4, RawMessage;
      DatagramHead(mem, off, msgs);
      assert msgs[0].Fits();
      assert |DatagramBytes(msgs)| == step + |DatagramBytes(msgs[1..])|;
      OffsetsStep(mem, off, len, msgs[0]);
      OffsetsOfDatagram(mem, off + step, len - step, msgs[1..]);
      assert MessageOffsets(off, msgs)[1..] == MessageOffsets(off + step, msgs[1..]);
    }
  }

  // Results of recvmsg.

  /** What one recvmsg gives: an error or end of file, or `len` bytes at the start
      of `mem`. The memory holds the whole buffer and the bytes just behind it;
      what lies past `len` is arbitrary. */
  datatype Receipt = Failed | Datagram(mem: seq<byte>, len: nat) {
    predicate Valid() {
      Datagram? ==> 0 < len <= BUFFER && BUFFER + SLACK <= |mem|
    }
  }

  /** The message types at which a reader leaves the current datagram. */
  predicate Stops(mem: seq<byte>, off: nat)
    requires off + HEADER <= |mem|
  {
    TypeAt(mem, off) == NLMSG_DONE || TypeAt(mem, off) == NLMSG_ERROR
  }

  /** How many messages come before the first DONE or ERROR. */
  function FirstStop(mem: seq<byte>, offs: seq<nat>): (k: nat)
    requires AllFramed(mem, offs, |mem|)
    ensures k <= |offs| && (k < |offs| ==> Stops(mem, offs[k]))
    ensures forall i :: 0 <= i < k ==> !Stops(mem, offs[i])
  {
    if offs == [] || Stops(mem, offs[0]) then 0 else 1 + FirstStop(mem, offs[1..])
  }

  /** The messages a reader handles: those before the first stop. */
  function Handled(mem: seq<byte>, offs: seq<nat>): (hs: seq<nat>)
    requires AllFramed(mem, offs, |mem|)
    ensures forall end :: AllFramed(mem, offs, end) ==> AllFramed(mem, hs, end)
  {
    offs[..FirstStop(mem, offs)]
  }

  /** Type of the message that stops the loop, or 0 (NLMSG_NOOP is 1) if it runs out
      of well-formed messages. */
  function StopType(mem: seq<byte>, offs: seq<nat>): (t: nat)
    requires AllFramed(mem, offs, |mem|)
    ensures t in {0, NLMSG_DONE, NLMSG_ERROR}
  {
    var k := FirstStop(mem, offs);
    if k == |offs| then 0 else TypeAt(mem, offs[k])
  }

  /** One round of the message loop of either reader. */
  lemma LoopStep(mem: seq<byte>, off: nat, len: int)
    requires off + len + SLACK <= |mem|
    ensures var offs := Offsets(mem, off, len);
            && AllFramed(mem, offs, |mem| - SLACK) && AllFramed(mem, offs, |mem|)
            && if !NlmsgOk(mem, off, len) then StopType(mem, offs) == 0 && Handled(mem, offs) == []
               else if Stops(mem, off) then StopType(mem, offs) == TypeAt(mem, off) && Handled(mem, offs) == []
               else
                 var step := Align4(Get32(mem, off));
                 var rest := Offsets(mem, off + step, len - step);
                 && AllFramed(mem, rest, |mem| - SLACK) && AllFramed(mem, rest, |mem|)
                 && StopType(mem, offs) == StopType(mem, rest)
                 && Handled(mem, offs) == [off] + Handled(mem, rest)
  {
    hide TypeAt, Align4, Get32;
    OffsetsAreSafe(mem, off, len);
    var offs := Offsets(mem, off, len);
    if NlmsgOk(mem, off, len) && !Stops(mem, off) {
      var step := Align4(Get32(mem, off));
      var rest := Offsets(mem, off + step, len - step);
      OffsetsAreSafe(mem, off + step, len - step);
      assert offs == [off] + rest;
      hide Offsets, Stops, NlmsgOk;
      StopLater(mem, off, rest);
    }
  }

  lemma StopLater(mem: seq<byte>, off: nat, rest: seq<nat>)
    requires AllFramed(mem, [off] + rest, |mem|) && AllFramed(mem, rest, |mem|) && Framed(mem, off, |mem|)
    requires !Stops(mem, off)
    ensures StopType(mem, [off] + rest) == StopType(mem, rest)
    ensures Handled(mem, [off] + rest) == [off] + Handled(mem, rest)
  {
    hide TypeAt, Get32, Stops;
    assert ([off] + rest)[1..] == rest;
    assert FirstStop(mem, [off] + rest) == 1 + FirstStop(mem, rest);
  }
}
