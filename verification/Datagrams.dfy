/** Datagrams as their sender meant them: messages with a fixed body and attributes,
    other messages, and what ends the reading. Both readers are judged by these. */
module Datagrams {
  import opened Bytes
  import opened Attributes
  import opened Messages
  import opened Overhang

  /** One message: a fixed body and attributes, or any other body. */
  datatype Item =
    | WithAttrs(ty: u16, flags: u16, seqno: u32, pid: u32, fixed: seq<byte>, attrs: seq<Attr>, padding: nat)
    | Plain(msg: Message)
  {
    /** The length may or may not count the padding of the last attribute. */
    ghost predicate Valid() {
      && Msg().Fits() && Ty() !in {NLMSG_DONE, NLMSG_ERROR}
      && (WithAttrs? ==>
            |fixed| % 4 == 0 && AllFit(attrs) && |Encode(attrs)| + padding <= Align4(|Encode(attrs)|))
    }

    function Msg(): (m: Message) {
      match this
      case WithAttrs(ty, flags, seqno, pid, fixed, attrs, padding) =>
        Message(ty, flags, seqno, pid, fixed + Encode(attrs) + Zeros(padding))
      case Plain(msg) => msg
    }

    function Len(): nat { Msg().Len() }

    function Ty(): (t: u16)
      ensures t == Msg().ty
    {
      if WithAttrs? then ty else msg.ty
    }
  }

  function MessagesOf(items: seq<Item>): (ms: seq<Message>)
    ensures |ms| == |items| && forall i :: 0 <= i < |items| ==> ms[i] == items[i].Msg()
  {
    seq(|items|, i requires 0 <= i < |items| => items[i].Msg())
  }

  ghost predicate AllValid(items: seq<Item>) {
    forall it :: it in items ==> it.Valid()
  }

  /** Nothing, or a message that ends the reading, and what follows it. */
  predicate Ending(tail: seq<Message>) {
    && (tail != [] ==> tail[0].ty in {NLMSG_DONE, NLMSG_ERROR})
    && forall m :: m in tail ==> m.Fits()
  }

  function EndingType(tail: seq<Message>): nat {
    if tail == [] then 0 else tail[0].ty
  }

  /** Where these messages end. */
  function End(off: nat, items: seq<Item>, tail: seq<Message>): nat {
    off + |DatagramBytes(MessagesOf(items) + tail)|
  }

  /** `len` bytes at `off` hold these messages; what follows them is malformed, or
      cannot matter because they end the reading. */
  ghost predicate HoldsItems(mem: seq<byte>, off: nat, len: nat, items: seq<Item>, tail: seq<Message>) {
    var end := End(off, items, tail);
    && AllValid(items) && Ending(tail)
    && At(mem, off, DatagramBytes(MessagesOf(items) + tail))
    && end <= off + len && len <= BUFFER && off + len + SLACK <= |mem|
    && (tail == [] ==> !NlmsgOk(mem, end, off + len - end))
  }

  lemma EndInMemory(mem: seq<byte>, off: nat, len: nat, items: seq<Item>, tail: seq<Message>)
    requires HoldsItems(mem, off, len, items, tail)
    ensures End(off, items, tail) + SLACK <= |mem|
  {
  }

  // One message.

  /** A message in its place: what the readers see of it. */
  lemma ItemInPlace(mem: seq<byte>, nh: nat, it: Item)
    requires it.Valid() && At(mem, nh, RawMessage(it.Msg())) && nh + Align4(it.Len()) + SLACK <= |mem|
    ensures Framed(mem, nh, |mem| - SLACK) && !Stops(mem, nh)
    ensures Get32(mem, nh) == it.Len() && TypeAt(mem, nh) == it.Ty()
    ensures Next(mem, nh) == nh + Align4(it.Len()) && Rest(mem, nh) == Budget(it.Len())
    ensures it.WithAttrs? ==>
              && HoldsAttrs(mem, nh, |it.fixed|, it.attrs)
              && mem[nh + HEADER..nh + HEADER + |it.fixed|] == it.fixed
  {
    hide Encode, RawMessage, At, Get32, TypeAt;
    RawMessageAt(mem, nh, it.Msg());
    if it.WithAttrs? {
      AttrsInPlace(mem, nh, it);
    }
  }

  lemma AttrsInPlace(mem: seq<byte>, nh: nat, it: Item)
    requires it.WithAttrs? && it.Valid() && At(mem, nh + HEADER, it.Msg().body)
    requires Framed(mem, nh, |mem| - SLACK) && Get32(mem, nh) == it.Len()
    ensures HoldsAttrs(mem, nh, |it.fixed|, it.attrs)
    ensures nh + HEADER + |it.fixed| <= |mem| && mem[nh + HEADER..nh + HEADER + |it.fixed|] == it.fixed
  {
    hide Encode, Get32, Align4;
    AtParts(mem, nh + HEADER, it.fixed + Encode(it.attrs), Zeros(it.padding),
            nh + HEADER + |it.fixed + Encode(it.attrs)|);
    AtParts(mem, nh + HEADER, it.fixed, Encode(it.attrs), nh + HEADER + |it.fixed|);
  }

  // A datagram, message by message.

  /** The messages behind the first one. */
  function Following(items: seq<Item>, tail: seq<Message>): seq<Message>
    requires items != []
  {
    MessagesOf(items[1..]) + tail
  }

  lemma FirstOffset(off: nat, items: seq<Item>)
    requires items != []
    ensures MessageOffsets(off, MessagesOf(items))
            == [off] + MessageOffsets(off + Align4(items[0].Len()), MessagesOf(items[1..]))
  {
    hide Item.Msg, Align4;
    assert MessagesOf(items)[1..] == MessagesOf(items[1..]);
  }

  lemma HeaderThere(mem: seq<byte>, off: nat, msgs: seq<Message>)
    requires msgs != [] && msgs[0].Fits() && At(mem, off, DatagramBytes(msgs))
    requires |DatagramBytes(msgs)| <= BUFFER
    ensures off + 4 <= |mem| && HEADER <= Get32(mem, off) == msgs[0].Len() <= BUFFER
  {
    hide RawMessage, Get32, TypeAt, Align4, At;
    DatagramHead(mem, off, msgs);
    RawMessageAt(mem, off, msgs[0]);
    assert msgs[0].Len() <= |DatagramBytes(msgs)|;
  }

  /** The first message is in its place, and the rest is a shorter datagram. */
  lemma HoldsFewerItems(mem: seq<byte>, off: nat, len: nat, items: seq<Item>, tail: seq<Message>)
    requires HoldsItems(mem, off, len, items, tail) && items != []
    ensures var it, next := items[0], off + Align4(items[0].Len());
            && At(mem, off, RawMessage(it.Msg())) && it.Valid()
            && next <= off + len && off + len + SLACK <= |mem|
            && HoldsItems(mem, next, off + len - next, items[1..], tail)
            && End(next, items[1..], tail) == End(off, items, tail)
  {
    hide RawMessage, NlmsgOk, Align4, Item.Valid, At;
    var msgs := MessagesOf(items) + tail;
    DatagramHead(mem, off, msgs);
    assert |DatagramBytes(msgs)| == Align4(msgs[0].Len()) + |DatagramBytes(msgs[1..])|;
    assert msgs[1..] == Following(items, tail);
    assert items[0] in items;
  }

  /** What stands behind the first message: the header of the next one, or the end. */
  lemma BehindFirst(mem: seq<byte>, off: nat, len: nat, items: seq<Item>, tail: seq<Message>)
    requires HoldsItems(mem, off, len, items, tail)
    ensures var msgs := MessagesOf(items) + tail;
            if msgs == [] then End(off, items, tail) == off
            else off + 4 <= |mem| && HEADER <= Get32(mem, off) == msgs[0].Len() <= BUFFER
  {
    hide Get32, At, NlmsgOk, Item.Valid;
    var msgs := MessagesOf(items) + tail;
    if msgs != [] {
      assert msgs[0] == if items != [] then items[0].Msg() else tail[0];
      assert items != [] ==> items[0] in items;
      FirstFits(items, tail);
      HeaderThere(mem, off, msgs);
    }
  }

  lemma FirstFits(items: seq<Item>, tail: seq<Message>)
    requires AllValid(items) && Ending(tail) && MessagesOf(items) + tail != []
    ensures (MessagesOf(items) + tail)[0].Fits()
  {
    assert items != [] ==> items[0] in items;
  }

  lemma DatagramEnds(mem: seq<byte>, off: nat, len: nat, tail: seq<Message>)
    requires HoldsItems(mem, off, len, [], tail)
    ensures NlmsgOk(mem, off, len) <==> tail != []
    ensures tail != [] ==> TypeAt(mem, off) == tail[0].ty
  {
    hide RawMessage, Get32, Align4, TypeAt, At;
    assert MessagesOf([]) + tail == tail;
    if tail != [] {
      DatagramHead(mem, off, tail);
      assert tail[0].Len() <= |DatagramBytes(tail)|;
      RawMessageAt(mem, off, tail[0]);
    }
  }

  /** A reader handles exactly the messages of a datagram, and leaves it by its end. */
  lemma {:induction false} DatagramHandled(mem: seq<byte>, off: nat, len: nat, items: seq<Item>, tail: seq<Message>)
    requires HoldsItems(mem, off, len, items, tail)
    ensures var offs := Offsets(mem, off, len);
            && AllFramed(mem, offs, |mem| - SLACK) && AllFramed(mem, offs, |mem|)
            && Handled(mem, offs) == MessageOffsets(off, MessagesOf(items))
            && StopType(mem, offs) == EndingType(tail)
    decreases |items|
  {
    hide At, RawMessage, Offsets, Handled, StopType, AllFramed, Framed, Stops, Get32, TypeAt, Align4,
         HoldsItems, End, Item.Valid, Item.Msg;
    OnlyWithin(mem, off, len, items, tail);
    LoopStep(mem, off, len);
    if items == [] {
      DatagramEnds(mem, off, len, tail);
      EndStops(mem, off, tail);
    } else {
      var next := off + Align4(items[0].Len());
      HoldsFewerItems(mem, off, len, items, tail);
      ItemInPlace(mem, off, items[0]);
      DatagramHandled(mem, next, off + len - next, items[1..], tail);
      assert MessagesOf(items)[1..] == MessagesOf(items[1..]);
    }
  }

  lemma OnlyWithin(mem: seq<byte>, off: nat, len: nat, items: seq<Item>, tail: seq<Message>)
    requires HoldsItems(mem, off, len, items, tail)
    ensures off + len + SLACK <= |mem| && Ending(tail)
  {
  }

  lemma EndStops(mem: seq<byte>, off: nat, tail: seq<Message>)
    requires off + HEADER <= |mem| && Ending(tail) && (tail != [] ==> TypeAt(mem, off) == tail[0].ty)
    ensures tail != [] ==> Stops(mem, off)
  {
  }

  // Received datagrams.

  /** What a receive was meant to bring; `Lost` for one that failed. */
  datatype Part = Part(items: seq<Item>, tail: seq<Message>) | Lost

  ghost predicate Carries(r: Receipt, p: Part) {
    && r.Valid()
    && match p
       case Lost => r.Failed?
       case Part(items, tail) => r.Datagram? && HoldsItems(r.mem, 0, r.len, items, tail)
  }

  ghost predicate AllCarry(input: seq<Receipt>, parts: seq<Part>) {
    |input| == |parts| && forall i :: 0 <= i < |parts| ==> Carries(input[i], parts[i])
  }

  /** Extra lines cannot be made up for by the ones that follow. */
  lemma Cancel<T>(a: seq<T>, x: seq<T>, b: seq<T>, c: seq<T>)
    requires |b| >= |c|
    ensures a + x + b == a + c <==> x == [] && b == c
  {
    if a + x + b == a + c {
      assert |x| == 0 && a + x + b == a + b;
      assert b == (a + b)[|a|..] && c == (a + c)[|a|..];
    }
  }
}
